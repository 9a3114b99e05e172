/**
 The panel's push cache (internal/panel/traffic.go, internal/panel/hub.go): a node
 is pushed a configuration only when the signature of its active users changed,
 yet no node can tell the difference from being pushed every time.

 A run is any sequence of events; an event that is not possible in a state leaves
 it unchanged. Each sync is one step.
 */
module PushCache {
  import opened Wrappers
  import opened Traffic
  import opened StoreSpec
  import opened Ledgers
  import opened Signature
  import opened Json
  import opened ClientSplit
  import AP = ApplyProtocol
  import I = IngestSpec
  import Activity
  import opened Provisioning

  const CAPACITY := 8

  datatype Msg = ConfigMsg(settings: Settings, clients: seq<Client>) | AckMsg(seqNo: int)

  /**
   A live connection: everything ever queued on it, how much of that is still in
   the write queue, and whether its connect-time sync has happened.
   */
  datatype Conn = Conn(queued: seq<Msg>, unsent: nat, synced: bool)

  /** `unpushed`: the nodes whose settings have been saved and not force-synced since. */
  datatype Panel = Panel(db: Tables, now: int, conns: map<int, Conn>, cache: map<int, string>, unpushed: set<int>)

  datatype Event =
    | Store(op: Op)
    | Report(node: int, seqNo: int, items: seq<Item>)
    | ClockTo(now: int)
    | Sync(node: int)
    | EnforcementTick(order: seq<int>)     // the online nodes, in whatever order they are ranged over
    | Connect(node: int)
    | ConnectSync(node: int)
    | Disconnect(node: int)
    | Drain(node: int)
    | QueueAck(node: int, seqNo: int)
    | SaveSettings(node: int, settings: Settings)
    | PushSettings(node: int)
    | RestartPanel

  // ---- operations ----

  function ActiveFor(s: Panel, node: int): seq<Client> {
    ActiveClients(UsersFor(s.db, node), s.now)
  }

  function Enqueue(c: Conn, m: Msg): Conn {
    if c.unsent < CAPACITY then c.(queued := c.queued + [m], unsent := c.unsent + 1) else c
  }

  /** Whether a push reaches the node's write queue. */
  predicate CanPush(s: Panel, node: int) {
    node in s.conns && node in s.db.nodes && s.conns[node].unsent < CAPACITY
  }

  function FreshConfig(s: Panel, node: int): Msg
    requires node in s.db.nodes
  {
    ConfigMsg(s.db.nodes[node].settings, ActiveFor(s, node))
  }

  function Push(s: Panel, node: int): Panel {
    if CanPush(s, node) then s.(conns := s.conns[node := Enqueue(s.conns[node], FreshConfig(s, node))]) else s
  }

  /** Pushes if the active users changed, and remembers their signature if the push was queued. */
  function SyncNode(s: Panel, node: int): Panel {
    if node in s.cache && s.cache[node] == PreHash(ActiveFor(s, node)) then s
    else if !CanPush(s, node) then s
    else Push(s, node).(cache := s.cache[node := PreHash(ActiveFor(s, node))])
  }

  /** Always pushes; a push that did not reach the queue also forgets the signature. */
  function ForceSync(s: Panel, node: int): Panel {
    if !CanPush(s, node) then s.(cache := s.cache - {node}, unpushed := s.unpushed - {node})
    else Push(s, node).(cache := s.cache[node := PreHash(ActiveFor(s, node))], unpushed := s.unpushed - {node})
  }

  function MarkSynced(s: Panel, node: int): Panel {
    if node in s.conns then s.(conns := s.conns[node := s.conns[node].(synced := true)]) else s
  }

  function SyncAll(s: Panel, ids: seq<int>): Panel {
    if ids == [] then s else SyncNode(SyncAll(s, ids[..|ids| - 1]), ids[|ids| - 1])
  }

  /** `ids` holds every element of `all` exactly once. */
  ghost predicate Orders(ids: seq<int>, all: set<int>) {
    && (forall n :: n in ids <==> n in all)
    && forall i, j :: 0 <= i < j < |ids| ==> ids[i] != ids[j]
  }

  function UpdateConn(s: Panel, node: int, c: Conn): Panel {
    s.(conns := s.conns[node := c])
  }

  /** Saving a node's settings and the forced sync that follows are two steps: other syncs may fall between them. */
  function Save(s: Panel, node: int, settings: Settings): Panel
    requires node in s.db.nodes
  {
    s.(db := s.db.(nodes := s.db.nodes[node := s.db.nodes[node].(settings := settings)]),
       unpushed := s.unpushed + {node})
  }

  /** New usernames are validated and uuids are generated. */
  predicate ValidOp(op: Op) {
    && (op.NewUser? ==> ValidUsername(op.row.username) && UuidText(op.row.uuid))
    && (op.Rekey? ==> UuidText(op.uuid))
  }

  /** A reported batch is credited and the node synced at once; a skipped batch does neither. */
  ghost function DoReport(s: Panel, node: int, seqNo: int, items: seq<Item>): Panel {
    if WellFormed(s.db) && !I.Skipped(s.db, node, seqNo)
    then SyncNode(s.(db := I.Ingest(s.db, node, seqNo, items, s.now)), node) else s
  }

  ghost function Next(s: Panel, ev: Event): Panel {
    match ev
    case Store(op) => if ValidOp(op) then s.(db := Apply(s.db, op)) else s
    case Report(node, seqNo, items) => DoReport(s, node, seqNo, items)
    case ClockTo(now) => s.(now := now)
    case Sync(node) => SyncNode(s, node)
    case EnforcementTick(order) => if Orders(order, s.conns.Keys) then SyncAll(s, order) else s
    case Connect(node) => if node in s.db.nodes then UpdateConn(s, node, Conn([], 0, false)) else s
    case ConnectSync(node) => MarkSynced(ForceSync(s, node), node)
    case Disconnect(node) => s.(conns := s.conns - {node})
    case Drain(node) =>
      if node in s.conns && s.conns[node].unsent > 0
      then UpdateConn(s, node, s.conns[node].(unsent := s.conns[node].unsent - 1)) else s
    case QueueAck(node, seqNo) =>
      if node in s.conns then UpdateConn(s, node, Enqueue(s.conns[node], AckMsg(seqNo))) else s
    case SaveSettings(node, settings) => if node in s.db.nodes then Save(s, node, settings) else s
    case PushSettings(node) => ForceSync(s, node)
    case RestartPanel => s.(conns := map[], cache := map[], unpushed := {})
  }

  ghost function Run(s: Panel, evs: seq<Event>): Panel {
    if evs == [] then s else Next(Run(s, evs[..|evs| - 1]), evs[|evs| - 1])
  }

  const START := Panel(EMPTY_TABLES, 0, map[], map[], {})

  // ---- the invariant ----

  /** The last configuration queued on a connection. */
  function LastConfig(queued: seq<Msg>): Option<Msg> {
    if queued == [] then None
    else if queued[|queued| - 1].ConfigMsg? then Some(queued[|queued| - 1])
    else LastConfig(queued[..|queued| - 1])
  }

  /** `m` is a configuration for `settings` whose active set has signature `sig`. */
  ghost predicate Signed(m: Option<Msg>, settings: Settings, sig: string) {
    && m.Some? && m.value.ConfigMsg? && m.value.settings == settings
    && AllPrintable(m.value.clients) && Distinct(m.value.clients)
    && NamesPresent(m.value.clients)
    && PreHash(m.value.clients) == sig
  }

  ghost predicate NamesPresent(cs: seq<Client>) {
    forall c :: c in cs ==> c.email != ""
  }

  /** An existing node, online past its connect-time sync, with no saved settings still to be pushed. */
  predicate Settled(s: Panel, node: int) {
    node in s.db.nodes && node in s.conns && s.conns[node].synced && node !in s.unpushed
  }

  /**
   If such a node has a cached signature, the last configuration queued on its
   current connection was built from its current settings and an active set with
   that signature.
   */
  ghost predicate Coherent(s: Panel, node: int) {
    Settled(s, node) && node in s.cache ==>
      Signed(LastConfig(s.conns[node].queued), s.db.nodes[node].settings, s.cache[node])
  }

  ghost predicate Inv(s: Panel) {
    && ValidUsers(s.db.users) && WellFormed(s.db)
    && (forall n :: n in s.conns ==> n < s.db.nextNode && s.conns[n].unsent <= CAPACITY)
    && (forall n :: n in s.cache ==> n < s.db.nextNode)
    && forall n :: Coherent(s, n)
  }

  lemma LastConfigAppend(queued: seq<Msg>, m: Msg)
    ensures LastConfig(queued + [m]) == if m.ConfigMsg? then Some(m) else LastConfig(queued)
  {
  }

  /** The active clients of a node are printable, unique and named. */
  lemma ActiveWellFormed(s: Panel, node: int)
    requires ValidUsers(s.db.users)
    ensures AllPrintable(ActiveFor(s, node)) && Distinct(ActiveFor(s, node)) && NamesPresent(ActiveFor(s, node))
  {
    var users := UsersFor(s.db, node);
    UsersUnique(s.db, node);
    ActiveDistinct(users, s.now);
    forall c | c in ActiveFor(s, node)
      ensures Printable(c) && c.email != ""
    {
      ActiveFrom(users, s.now, c);
      var i :| 0 <= i < |users| && c == Client(users[i].username, users[i].uuid);
      ValidIsPrintable(c);
    }
  }

  /** A push that reaches the queue makes the node coherent with the recorded signature. */
  lemma PushedCoherent(s: Panel, node: int)
    requires ValidUsers(s.db.users) && CanPush(s, node)
    ensures var r := Push(s, node);
            && r.conns[node].unsent == s.conns[node].unsent + 1 && r.conns[node].synced == s.conns[node].synced
            && LastConfig(r.conns[node].queued) == Some(FreshConfig(s, node))
            && Signed(LastConfig(r.conns[node].queued), s.db.nodes[node].settings, PreHash(ActiveFor(s, node)))
  {
    LastConfigAppend(s.conns[node].queued, FreshConfig(s, node));
    ActiveWellFormed(s, node);
  }

  lemma SyncKeeps(s: Panel, node: int)
    requires Inv(s)
    ensures Inv(SyncNode(s, node)) && SyncNode(s, node).conns.Keys == s.conns.Keys
  {
    var r := SyncNode(s, node);
    if r != s {
      PushedCoherent(s, node);
      forall n
        ensures Coherent(r, n)
      {
        assert Coherent(s, n);
      }
    }
  }

  /** After a forced sync the node is coherent whatever it was before: pushed, or without a signature. */
  lemma ForceKeeps(s: Panel, node: int)
    requires Inv(s)
    ensures Inv(ForceSync(s, node)) && Inv(MarkSynced(ForceSync(s, node), node))
  {
    var f := ForceSync(s, node);
    var r := MarkSynced(f, node);
    if CanPush(s, node) {
      PushedCoherent(s, node);
    }
    forall n
      ensures Coherent(f, n) && Coherent(r, n)
    {
      assert Coherent(s, n);
    }
  }

  lemma SaveKeeps(s: Panel, node: int, settings: Settings)
    requires Inv(s) && node in s.db.nodes
    ensures Inv(Save(s, node, settings))
  {
    var r := Save(s, node, settings);
    forall n
      ensures Coherent(r, n)
    {
      assert Coherent(s, n);
    }
  }

  /** Events that replace a connection by one with the same last configuration, or drop it. */
  lemma ConnKeeps(s: Panel, r: Panel, node: int)
    requires Inv(s) && r == s.(conns := r.conns)
    requires forall n :: n != node ==> (n in r.conns <==> n in s.conns) && (n in r.conns ==> r.conns[n] == s.conns[n])
    requires node in r.conns ==> node < s.db.nextNode && r.conns[node].unsent <= CAPACITY
    requires node in r.conns && r.conns[node].synced ==>
               node in s.conns && s.conns[node].synced &&
               LastConfig(r.conns[node].queued) == LastConfig(s.conns[node].queued)
    ensures Inv(r)
  {
    forall n
      ensures Coherent(r, n)
    {
      assert Coherent(s, n);
    }
  }

  /** Changes of the store that leave the settings of existing nodes alone. */
  lemma StoreKeeps(s: Panel, db: Tables, now: int)
    requires Inv(s) && ValidUsers(db.users) && WellFormed(db) && s.db.nextNode <= db.nextNode
    requires forall n :: n in db.nodes && n < s.db.nextNode ==>
               n in s.db.nodes && db.nodes[n].settings == s.db.nodes[n].settings
    ensures Inv(s.(db := db, now := now))
  {
    hide LastConfig, Signed, ValidUsers;
    var r := s.(db := db, now := now);
    forall n
      ensures Coherent(r, n)
    {
      assert Coherent(s, n);
    }
  }

  lemma ApplyNodes(t: Tables, op: Op)
    requires WellFormed(t)
    ensures var r := Apply(t, op);
            && t.nextNode <= r.nextNode
            && forall n :: n in r.nodes && n < t.nextNode ==> n in t.nodes && r.nodes[n] == t.nodes[n]
  {
    hide AddTo, WithoutRow, WithoutColumn, Taken;
  }

  lemma ApplyValid(t: Tables, op: Op)
    requires WellFormed(t) && ValidUsers(t.users) && ValidOp(op)
    ensures ValidUsers(Apply(t, op).users)
  {
    hide AddTo, WithoutRow, WithoutColumn, ValidUsername, UuidText;
  }

  /** Crediting a batch touches no name, no uuid and no settings. */
  lemma IngestShape(t: Tables, node: int, seqNo: int, items: seq<Item>, now: int)
    requires WellFormed(t) && ValidUsers(t.users)
    ensures var r := I.Ingest(t, node, seqNo, items, now);
            && WellFormed(r) && ValidUsers(r.users) && r.userNodes == t.userNodes && r.nextNode == t.nextNode
            && r.nodes.Keys == t.nodes.Keys && forall n :: n in t.nodes ==> r.nodes[n].settings == t.nodes[n].settings
  {
    hide I.Ingest, ValidUsername, UuidText;
    var r := I.Ingest(t, node, seqNo, items, now);
    I.IngestCredits(t, node, seqNo, items, now, 0, 0, 0, Up);
    forall u | u in t.users
      ensures u in r.users && r.users[u].username == t.users[u].username && r.users[u].uuid == t.users[u].uuid
    {
      I.IngestCredits(t, node, seqNo, items, now, u, 0, 0, Up);
    }
  }

  lemma {:induction false} SyncAllKeeps(s: Panel, ids: seq<int>)
    requires Inv(s)
    ensures Inv(SyncAll(s, ids))
  {
    if ids != [] {
      SyncAllKeeps(s, ids[..|ids| - 1]);
      SyncKeeps(SyncAll(s, ids[..|ids| - 1]), ids[|ids| - 1]);
    }
  }

  lemma LinkEventKeeps(s: Panel, ev: Event)
    requires Inv(s) && (ev.Connect? || ev.Disconnect? || ev.Drain? || ev.QueueAck?)
    ensures Inv(Next(s, ev))
  {
    hide Signed, LastConfig, ValidUsers;
    if ev.QueueAck? && ev.node in s.conns {
      LastConfigAppend(s.conns[ev.node].queued, AckMsg(ev.seqNo));
    }
    ConnKeeps(s, Next(s, ev), ev.node);
  }

  lemma StoreEventKeeps(s: Panel, ev: Event)
    requires Inv(s) && (ev.Store? || ev.ClockTo?)
    ensures Inv(Next(s, ev))
  {
    hide Signed, LastConfig, ValidUsers, Coherent, Apply;
    match ev
    case Store(op) =>
      if ValidOp(op) {
        ApplyWellFormed(s.db, op);
        ApplyNodes(s.db, op);
        ApplyValid(s.db, op);
        StoreKeeps(s, Apply(s.db, op), s.now);
      }
    case ClockTo(now) => StoreKeeps(s, s.db, now);
  }

  lemma ReportKeeps(s: Panel, node: int, seqNo: int, items: seq<Item>)
    requires Inv(s)
    ensures Inv(s.(db := I.Ingest(s.db, node, seqNo, items, s.now))) && Inv(DoReport(s, node, seqNo, items))
  {
    hide Signed, LastConfig, ValidUsers, Coherent, I.Ingest, SyncNode;
    IngestShape(s.db, node, seqNo, items, s.now);
    var db := I.Ingest(s.db, node, seqNo, items, s.now);
    StoreKeeps(s, db, s.now);
    SyncKeeps(s.(db := db), node);
  }

  lemma RestartKeeps(s: Panel)
    requires Inv(s)
    ensures Inv(Next(s, RestartPanel))
  {
  }

  lemma NextKeeps(s: Panel, ev: Event)
    requires Inv(s)
    ensures Inv(Next(s, ev))
  {
    hide Inv;
    match ev
    case Sync(node) => SyncKeeps(s, node);
    case EnforcementTick(order) => SyncAllKeeps(s, order);
    case ConnectSync(node) => ForceKeeps(s, node);
    case PushSettings(node) => ForceKeeps(s, node);
    case SaveSettings(node, settings) =>
      if node in s.db.nodes {
        SaveKeeps(s, node, settings);
      }
    case Report(node, seqNo, items) => ReportKeeps(s, node, seqNo, items);
    case RestartPanel => RestartKeeps(s);
    case Connect(_) => LinkEventKeeps(s, ev);
    case Disconnect(_) => LinkEventKeeps(s, ev);
    case Drain(_) => LinkEventKeeps(s, ev);
    case QueueAck(_, _) => LinkEventKeeps(s, ev);
    case _ => StoreEventKeeps(s, ev);
  }

  // ---- the theorems ----

  lemma {:induction false} InvHolds(evs: seq<Event>)
    ensures Inv(Run(START, evs))
  {
    if evs != [] {
      InvHolds(evs[..|evs| - 1]);
      NextKeeps(Run(START, evs[..|evs| - 1]), evs[|evs| - 1]);
    }
  }

  /**
   Push-cache coherence, in every reachable state: if an existing node is online
   past its connect-time sync, with no saved settings still to be pushed, and has a
   cached signature, the last configuration queued on its connection carries its
   current settings and an active set with that signature.
   */
  lemma CacheCoherent(evs: seq<Event>, node: int)
    requires var s := Run(START, evs);
             Settled(s, node) && node in s.cache
    ensures var s := Run(START, evs);
            exists cs: seq<Client> ::
              LastConfig(s.conns[node].queued) == Some(ConfigMsg(s.db.nodes[node].settings, cs)) &&
              PreHash(cs) == s.cache[node]
  {
    InvHolds(evs);
    var s := Run(START, evs);
    assert Coherent(s, node);
    var m := LastConfig(s.conns[node].queued).value;
    assert m == ConfigMsg(s.db.nodes[node].settings, m.clients);
  }

  /** Two configurations that no node can tell apart: the same settings and the same users. */
  ghost predicate SameConfig(a: Msg, b: Msg) {
    && a.ConfigMsg? && b.ConfigMsg? && a.settings == b.settings
    && (forall c :: c in a.clients <==> c in b.clients)
    && Skeleton.Uuids(a.clients) == Skeleton.Uuids(b.clients)
  }

  /** The node's last queued configuration is what a push right now would queue. */
  ghost predicate UpToDate(s: Panel, node: int) {
    && node in s.db.nodes && node in s.conns
    && LastConfig(s.conns[node].queued).Some?
    && SameConfig(LastConfig(s.conns[node].queued).value, FreshConfig(s, node))
  }

  lemma SameUuids(a: seq<Client>, b: seq<Client>)
    requires Distinct(a) && Distinct(b) && NamesPresent(a) && NamesPresent(b)
    requires forall c :: c in a <==> c in b
    ensures Skeleton.Uuids(a) == Skeleton.Uuids(b)
  {
    Skeleton.UuidsExact(a);
    Skeleton.UuidsExact(b);
    forall e
      ensures e in Skeleton.Uuids(a) <==> e in Skeleton.Uuids(b)
      ensures e in Skeleton.Uuids(a) ==> Skeleton.Uuids(a)[e] == Skeleton.Uuids(b)[e]
    {
      if e in Skeleton.Uuids(a) {
        var i :| 0 <= i < |a| && a[i].email == e;
        assert a[i] in b;
      }
      if e in Skeleton.Uuids(b) {
        var j :| 0 <= j < |b| && b[j].email == e;
        assert b[j] in a;
      }
    }
  }

  /** A matching signature means the node already has what would be pushed. */
  lemma MatchingSignatureUpToDate(s: Panel, node: int)
    requires Inv(s) && Settled(s, node) && node in s.cache && s.cache[node] == PreHash(ActiveFor(s, node))
    ensures UpToDate(s, node)
  {
    assert Coherent(s, node);
    var m := LastConfig(s.conns[node].queued).value;
    ActiveWellFormed(s, node);
    SignatureIdentifiesSet(m.clients, ActiveFor(s, node));
    SameUuids(m.clients, ActiveFor(s, node));
  }

  /**
   A sync that skips the push cannot be told apart from one that pushes: after any
   sync with queue room, skipped or not, the node's last queued configuration
   carries its current settings and exactly the users active now.
   */
  lemma SyncLeavesUpToDate(evs: seq<Event>, node: int)
    requires var s := Run(START, evs);
             Settled(s, node) && s.conns[node].unsent < CAPACITY
    ensures UpToDate(SyncNode(Run(START, evs), node), node)
  {
    InvHolds(evs);
    SyncNodeUpToDate(Run(START, evs), node);
  }

  lemma SyncNodeUpToDate(s: Panel, node: int)
    requires Inv(s) && Settled(s, node) && s.conns[node].unsent < CAPACITY
    ensures UpToDate(SyncNode(s, node), node)
  {
    if node in s.cache && s.cache[node] == PreHash(ActiveFor(s, node)) {
      MatchingSignatureUpToDate(s, node);
    } else {
      PushedCoherent(s, node);
      assert ActiveFor(SyncNode(s, node), node) == ActiveFor(s, node);
    }
  }

  /**
   A sync is free when nothing changed: if the configuration last queued for a settled
   node with a cached signature holds exactly the users active now, nothing is queued.
   */
  lemma UnchangedIsSkipped(s: Panel, node: int)
    requires Inv(s) && Settled(s, node) && node in s.cache
    requires LastConfig(s.conns[node].queued).Some? && LastConfig(s.conns[node].queued).value.ConfigMsg?
    requires forall c :: c in LastConfig(s.conns[node].queued).value.clients <==> c in ActiveFor(s, node)
    ensures SyncNode(s, node) == s
  {
    assert Coherent(s, node);
    ActiveWellFormed(s, node);
    SignatureIdentifiesSet(LastConfig(s.conns[node].queued).value.clients, ActiveFor(s, node));
  }

  /** Syncing one node touches nothing of another. */
  lemma SyncFrames(s: Panel, m: int, n: int)
    requires m != n
    ensures var r := SyncNode(s, m);
            && r.db == s.db && r.now == s.now && r.unpushed == s.unpushed && r.conns.Keys == s.conns.Keys
            && (n in s.conns ==> r.conns[n] == s.conns[n])
            && (n in r.cache <==> n in s.cache) && (n in s.cache ==> r.cache[n] == s.cache[n])
  {
  }

  /** What syncing a list of other nodes leaves of node `n`. */
  lemma {:induction false} SyncAllFrames(s: Panel, ids: seq<int>, n: int)
    requires n !in ids
    ensures var r := SyncAll(s, ids);
            && r.db == s.db && r.now == s.now && r.unpushed == s.unpushed && r.conns.Keys == s.conns.Keys
            && (n in s.conns ==> r.conns[n] == s.conns[n])
            && (n in r.cache <==> n in s.cache) && (n in s.cache ==> r.cache[n] == s.cache[n])
  {
    if ids != [] {
      SyncAllFrames(s, ids[..|ids| - 1], n);
      assert ids[|ids| - 1] in ids;
      SyncFrames(SyncAll(s, ids[..|ids| - 1]), ids[|ids| - 1], n);
    }
  }

  lemma {:induction false} SyncAllStore(s: Panel, ids: seq<int>)
    ensures SyncAll(s, ids).db == s.db && SyncAll(s, ids).now == s.now
  {
    if ids != [] {
      SyncAllStore(s, ids[..|ids| - 1]);
    }
  }

  lemma {:induction false} SyncAllUpToDate(s: Panel, ids: seq<int>, k: nat)
    requires Inv(s) && k < |ids| && forall i, j :: 0 <= i < j < |ids| ==> ids[i] != ids[j]
    requires Settled(s, ids[k]) && s.conns[ids[k]].unsent < CAPACITY
    ensures UpToDate(SyncAll(s, ids), ids[k])
  {
    var rest, last := ids[..|ids| - 1], ids[|ids| - 1];
    if k == |ids| - 1 {
      SyncAllKeeps(s, rest);
      SyncAllFrames(s, rest, last);
      SyncNodeUpToDate(SyncAll(s, rest), last);
    } else {
      SyncAllUpToDate(s, rest, k);
      var t := SyncAll(s, rest);
      SyncFrames(t, last, rest[k]);
      assert FreshConfig(SyncNode(t, last), rest[k]) == FreshConfig(t, rest[k]);
    }
  }

  /**
   After an enforcement tick, in whatever order it takes the nodes, every online node
   with queue room has, as its last queued configuration, exactly the users active
   at that tick.
   */
  lemma TickLeavesUpToDate(evs: seq<Event>, node: int, order: seq<int>)
    requires var s := Run(START, evs);
             Settled(s, node) && s.conns[node].unsent < CAPACITY && Orders(order, s.conns.Keys)
    ensures UpToDate(Next(Run(START, evs), EnforcementTick(order)), node)
  {
    InvHolds(evs);
    TickUpToDate(Run(START, evs), node, order);
  }

  lemma TickUpToDate(s: Panel, node: int, order: seq<int>)
    requires Inv(s) && Settled(s, node) && s.conns[node].unsent < CAPACITY && Orders(order, s.conns.Keys)
    ensures var r := Next(s, EnforcementTick(order));
            UpToDate(r, node) && r.db == s.db && r.now == s.now
  {
    hide Inv, UpToDate, SyncAll;
    assert node in order;
    var k :| 0 <= k < |order| && order[k] == node;
    SyncAllUpToDate(s, order, k);
    SyncAllStore(s, order);
  }

  /** Whether a batch takes a user's usage to its quota. */
  predicate ReachesQuota(t: Tables, node: int, items: seq<Item>, u: int) {
    u in t.users && t.users[u].dataLimit > 0 &&
    t.users[u].dataUsed + I.Worth(t, node, items, u, Up) + I.Worth(t, node, items, u, Down) >= t.users[u].dataLimit
  }

  // ---- who is on a node's configuration ----

  /** The configuration last queued for the node names a user so. */
  ghost predicate Named(s: Panel, node: int, name: string) {
    && node in s.conns && LastConfig(s.conns[node].queued).Some?
    && LastConfig(s.conns[node].queued).value.ConfigMsg?
    && exists c :: c in LastConfig(s.conns[node].queued).value.clients && c.email == name
  }

  lemma NamedIfActive(s: Panel, node: int, u: int)
    requires ValidUsers(s.db.users) && UpToDate(s, node) && u in s.db.users
    ensures Named(s, node, s.db.users[u].username) <==> (u, node) in s.db.userNodes && s.db.users[u].Active(s.now)
  {
    var row, rows := s.db.users[u], UsersFor(s.db, node);
    var cs := LastConfig(s.conns[node].queued).value.clients;
    if (u, node) in s.db.userNodes && row.Active(s.now) {
      var c := Client(row.username, row.uuid);
      UsersForAre(s.db, node, row);
      var k :| 0 <= k < |rows| && rows[k] == row;
      ActiveFrom(rows, s.now, c);
      assert c in cs;
    }
    if Named(s, node, row.username) {
      var c :| c in cs && c.email == row.username;
      ActiveFrom(rows, s.now, c);
      var i :| 0 <= i < |rows| && rows[i].Active(s.now) && c == Client(rows[i].username, rows[i].uuid);
      UsersForAre(s.db, node, rows[i]);
      var v :| v in s.db.users && (v, node) in s.db.userNodes && s.db.users[v] == rows[i];
    }
  }

  /**
   After a tick that finds the node settled and with room, a user is on the
   configuration last queued if and only if it is assigned to the node, enabled, not
   expired and under its quota at that tick.
   */
  lemma TickNames(evs: seq<Event>, node: int, order: seq<int>, u: int)
    requires var s := Run(START, evs);
             && Settled(s, node) && s.conns[node].unsent < CAPACITY && Orders(order, s.conns.Keys)
             && u in s.db.users
    ensures var s := Run(START, evs);
            var r, row := Next(s, EnforcementTick(order)), s.db.users[u];
            Named(r, node, row.username) <==>
              && (u, node) in s.db.userNodes
              && row.enabled && (row.expireAt <= 0 || s.now < row.expireAt)
              && (row.dataLimit <= 0 || row.dataUsed < row.dataLimit)
  {
    hide Run, UpToDate, Named, Orders;
    InvHolds(evs);
    TickUpToDate(Run(START, evs), node, order);
    NamedIfActive(Next(Run(START, evs), EnforcementTick(order)), node, u);
  }

  /**
   Quotas are enforced by the report that reaches them: once a batch has been
   credited, the configuration last queued for its node, if the queue has room, no
   longer holds any user that it took to the quota.
   */
  lemma ReportEnforced(evs: seq<Event>, node: int, seqNo: int, items: seq<Item>, u: int)
    requires var s := Run(START, evs);
             && Settled(s, node) && s.conns[node].unsent < CAPACITY
             && !I.Skipped(s.db, node, seqNo) && ReachesQuota(s.db, node, items, u)
    ensures var s := Run(START, evs);
            var r := Next(s, Report(node, seqNo, items));
            UpToDate(r, node) && !Named(r, node, s.db.users[u].username)
  {
    hide Run, LastConfig, I.Ingest, I.Worth;
    InvHolds(evs);
    var s := Run(START, evs);
    var t := s.(db := I.Ingest(s.db, node, seqNo, items, s.now));
    ReportKeeps(s, node, seqNo, items);
    IngestShape(s.db, node, seqNo, items, s.now);
    SyncNodeUpToDate(t, node);
    I.IngestCredits(s.db, node, seqNo, items, s.now, u, 0, 0, Up);
    NamedIfActive(SyncNode(t, node), node, u);
  }

  /** Nothing but an edit of the user switches it on again or moves its expiry. */
  lemma NextKeepsOff(s: Panel, ev: Event, u: int, bound: int)
    requires Inv(s) && !(ev.Store? && ev.op.Update? && ev.op.user == u)
    ensures Activity.SwitchedOff(s.db, u) ==> Activity.SwitchedOff(Next(s, ev).db, u)
    ensures Activity.Expired(s.db, u, bound) ==> Activity.Expired(Next(s, ev).db, u, bound)
  {
    hide Apply, I.Ingest, ValidUsers, PreHash, FreshConfig, ActiveFor;
    match ev
    case Store(op) => Activity.ApplyKeepsOff(s.db, op, u, bound);
    case Report(node, seqNo, items) => I.IngestCredits(s.db, node, seqNo, items, s.now, u, 0, 0, Up);
    case EnforcementTick(order) => SyncAllStore(s, order);
    case _ =>
  }

  lemma {:induction false} StaysOff(evs: seq<Event>, i: nat, u: int, bound: int)
    requires i <= |evs|
    requires forall j :: i <= j < |evs| ==> !(evs[j].Store? && evs[j].op.Update? && evs[j].op.user == u)
    ensures Activity.SwitchedOff(Run(START, evs[..i]).db, u) ==> Activity.SwitchedOff(Run(START, evs).db, u)
    ensures Activity.Expired(Run(START, evs[..i]).db, u, bound) ==> Activity.Expired(Run(START, evs).db, u, bound)
  {
    if i == |evs| {
      assert evs[..i] == evs;
    } else {
      hide Next, Activity.SwitchedOff, Activity.Expired;
      var rest := evs[..|evs| - 1];
      assert rest[..i] == evs[..i];
      StaysOff(rest, i, u, bound);
      InvHolds(rest);
      NextKeepsOff(Run(START, rest), evs[|evs| - 1], u, bound);
    }
  }

  /**
   An edit that switches a user off takes it off every node: at any later tick, until
   the user is edited again, no settled node with room is left with it on its
   configuration, whatever reports, resets and reassignments come in between.
   */
  lemma SwitchedOffIsGone(evs: seq<Event>, i: nat, u: int, row: User, node: int, order: seq<int>)
    requires i < |evs| && evs[i] == Store(Update(u, row)) && !row.enabled && u in Run(START, evs[..i]).db.users
    requires forall j :: i < j < |evs| ==> !(evs[j].Store? && evs[j].op.Update? && evs[j].op.user == u)
    requires var s := Run(START, evs);
             && Settled(s, node) && s.conns[node].unsent < CAPACITY && Orders(order, s.conns.Keys)
             && u in s.db.users
    ensures !Named(Next(Run(START, evs), EnforcementTick(order)), node, Run(START, evs).db.users[u].username)
  {
    hide Orders, Named, UpToDate, SyncAll;
    assert evs[..i + 1][..i] == evs[..i];
    InvHolds(evs[..i]);
    StaysOff(evs, i + 1, u, 0);
    TickNames(evs, node, order, u);
  }

  /** The same from a user's expiry on, for as long as it is not edited. */
  lemma ExpiredIsGone(evs: seq<Event>, i: nat, u: int, node: int, order: seq<int>)
    requires i <= |evs| && u in Run(START, evs[..i]).db.users
    requires forall j :: i <= j < |evs| ==> !(evs[j].Store? && evs[j].op.Update? && evs[j].op.user == u)
    requires 0 < Run(START, evs[..i]).db.users[u].expireAt <= Run(START, evs).now
    requires var s := Run(START, evs);
             && Settled(s, node) && s.conns[node].unsent < CAPACITY && Orders(order, s.conns.Keys)
             && u in s.db.users
    ensures !Named(Next(Run(START, evs), EnforcementTick(order)), node, Run(START, evs).db.users[u].username)
  {
    hide Run, Orders, Named, UpToDate, SyncAll;
    InvHolds(evs[..i]);
    StaysOff(evs, i, u, Run(START, evs).now);
    TickNames(evs, node, order, u);
  }

  /** The same after the clock has moved on: a user drops off at the first tick from its expiry on. */
  lemma TimePasses(evs: seq<Event>, now: int, node: int, order: seq<int>, u: int)
    requires var s := Run(START, evs);
             && Settled(s, node) && s.conns[node].unsent < CAPACITY && Orders(order, s.conns.Keys)
             && u in s.db.users
    ensures var s := Run(START, evs);
            var r, row := Next(Next(s, ClockTo(now)), EnforcementTick(order)), s.db.users[u];
            Named(r, node, row.username) <==>
              && (u, node) in s.db.userNodes
              && row.enabled && (row.expireAt <= 0 || now < row.expireAt)
              && (row.dataLimit <= 0 || row.dataUsed < row.dataLimit)
  {
    hide UpToDate, Named, Orders, SyncAll;
    assert (evs + [ClockTo(now)])[..|evs|] == evs;
    TickNames(evs + [ClockTo(now)], node, order, u);
  }

  /** The rules for a new user's name and identifier, written out. */
  predicate Acceptable(row: User) {
    && 1 <= |row.username| <= 64
    && (forall c :: c in row.username ==>
          'a' <= c <= 'z' || 'A' <= c <= 'Z' || '0' <= c <= '9' || c == '.' || c == '_' || c == '-')
    && forall c :: c in row.uuid ==> 'a' <= c <= 'f' || '0' <= c <= '9' || c == '-'
  }

  lemma AcceptableIsValid(row: User)
    requires Acceptable(row)
    ensures ValidOp(NewUser(row))
  {
  }

  /** A user that is created and assigned is on the node's configuration from the next tick on. */
  lemma NewUserArrives(evs: seq<Event>, row: User, node: int, order: seq<int>)
    requires var s := Run(START, evs);
             && Settled(s, node) && s.conns[node].unsent < CAPACITY && Orders(order, s.conns.Keys)
             && Acceptable(row) && row.enabled && (row.expireAt <= 0 || s.now < row.expireAt)
             && forall u :: u in s.db.users ==>
                  s.db.users[u].username != row.username && s.db.users[u].subToken != row.subToken
    ensures var s := Run(START, evs);
            var r := Next(Next(s, Store(NewUser(row))), Store(Assign(s.db.nextUser, {node})));
            Named(Next(r, EnforcementTick(order)), node, row.username)
  {
    hide UpToDate, Named, Orders, SyncAll, ValidUsername, UuidText, Acceptable;
    AcceptableIsValid(row);
    var s := Run(START, evs);
    var ops := [Store(NewUser(row)), Store(Assign(s.db.nextUser, {node}))];
    assert !Taken(s.db, row);
    RunTwo(evs, ops[0], ops[1]);
    TickNames(evs + ops, node, order, s.db.nextUser);
  }

  lemma RunTwo(evs: seq<Event>, a: Event, b: Event)
    ensures Run(START, evs + [a, b]) == Next(Next(Run(START, evs), a), b)
  {
    hide Next;
    assert (evs + [a, b])[..|evs| + 1] == evs + [a];
    assert (evs + [a])[..|evs|] == evs;
  }

  // ---- connections ----

  /**
   A node that connects is sent its configuration first thing, whatever it was sent
   before and whatever the cache holds, and is settled from then on: a sync sends
   nothing more until something changes.
   */
  lemma ConnectSends(s: Panel, node: int)
    requires node in s.db.nodes
    ensures var r := Next(Next(s, Connect(node)), ConnectSync(node));
            && r.conns == s.conns[node := Conn([ConfigMsg(s.db.nodes[node].settings, ActiveFor(s, node))], 1, true)]
            && r.db == s.db && Settled(r, node) && SyncNode(r, node) == r
  {
    hide ActiveClients, UsersFor, PreHash;
    assert [] + [FreshConfig(s, node)] == [FreshConfig(s, node)];
  }

  /** A panel that restarts has lost its connections and its cache and nothing of its tables. */
  lemma RestartReconnects(s: Panel, node: int)
    requires node in s.db.nodes
    ensures var r := Next(Next(Next(s, RestartPanel), Connect(node)), ConnectSync(node));
            && r.conns == map[node := Conn([ConfigMsg(s.db.nodes[node].settings, ActiveFor(s, node))], 1, true)]
            && r.cache.Keys == {node} && r.unpushed == {} && r.db == s.db && r.now == s.now
  {
    ConnectSends(Next(s, RestartPanel), node);
  }

  /** A full queue drops what is pushed; once it has drained by one message it has room, and nothing of it is lost. */
  lemma DrainMakesRoom(s: Panel, node: int)
    requires node in s.conns && node in s.db.nodes && s.conns[node].unsent == 8
    ensures !CanPush(s, node) && Push(s, node) == s
    ensures var r := Next(s, Drain(node));
            && CanPush(r, node) && Push(r, node).conns[node].queued == s.conns[node].queued + [FreshConfig(s, node)]
            && r.db == s.db && r.cache == s.cache
  {
    hide ActiveClients, UsersFor, PreHash;
  }

  // ---- saved settings ----

  /** The settings saved are the ones sent. */
  lemma SavedAreSent(s: Panel, node: int, settings: Settings)
    requires CanPush(s, node)
    ensures var r := Next(Next(s, SaveSettings(node, settings)), PushSettings(node));
            && r.db == s.db.(nodes := s.db.nodes[node := s.db.nodes[node].(settings := settings)])
            && r.conns[node].queued == s.conns[node].queued + [ConfigMsg(settings, ActiveFor(s, node))]
            && node !in r.unpushed
  {
    hide ActiveClients, PreHash;
  }

  lemma ForcedUpToDate(s: Panel, node: int)
    requires Inv(s) && CanPush(s, node)
    ensures UpToDate(ForceSync(s, node), node) && UpToDate(MarkSynced(ForceSync(s, node), node), node)
  {
    PushedCoherent(s, node);
    assert FreshConfig(ForceSync(s, node), node) == FreshConfig(s, node);
    assert FreshConfig(MarkSynced(ForceSync(s, node), node), node) == FreshConfig(s, node);
  }

  predicate Forces(ev: Event, node: int) {
    ev == PushSettings(node) || ev == ConnectSync(node)
  }

  lemma {:induction false} SyncAllUnpushed(s: Panel, ids: seq<int>)
    ensures SyncAll(s, ids).unpushed == s.unpushed
  {
    if ids != [] {
      SyncAllUnpushed(s, ids[..|ids| - 1]);
    }
  }

  /** Only saving settings leaves something to be pushed, and a forced sync settles it, delivered or not. */
  lemma NextUnpushed(s: Panel, ev: Event, node: int)
    ensures node in Next(s, ev).unpushed ==>
              !Forces(ev, node) && (node in s.unpushed || (ev.SaveSettings? && ev.node == node))
  {
    hide PreHash, ActiveFor, FreshConfig, Apply, I.Ingest;
    if ev.EnforcementTick? {
      SyncAllUnpushed(s, ev.order);
    }
  }

  lemma {:induction false} PushedForGood(evs: seq<Event>, i: nat, node: int)
    requires i < |evs| && Forces(evs[i], node)
    requires forall j :: i < j < |evs| ==> !(evs[j].SaveSettings? && evs[j].node == node)
    ensures node !in Run(START, evs).unpushed
  {
    hide Next, Forces;
    var rest, last := evs[..|evs| - 1], evs[|evs| - 1];
    NextUnpushed(Run(START, rest), last, node);
    if i < |evs| - 1 {
      assert rest[i] == evs[i];
      PushedForGood(rest, i, node);
    }
  }

  lemma ForcedNow(evs: seq<Event>, i: nat, node: int)
    requires i < |evs| && Forces(evs[i], node) && CanPush(Run(START, evs[..i]), node)
    ensures UpToDate(Run(START, evs[..i + 1]), node)
  {
    hide UpToDate, CanPush, ForceSync, MarkSynced;
    assert evs[..i + 1][..i] == evs[..i];
    InvHolds(evs[..i]);
    ForcedUpToDate(Run(START, evs[..i]), node);
  }

  /**
   Saved settings arrive. A forced sync with queue room leaves the node up to date,
   whatever state it was in; and once one has been attempted, delivered or not,
   every later tick that finds the node online past its connect-time sync and with
   room does so, until settings are saved again.
   */
  lemma SettingsArrive(evs: seq<Event>, i: nat, node: int, order: seq<int>)
    requires i < |evs| && Forces(evs[i], node)
    requires forall j :: i < j < |evs| ==> !(evs[j].SaveSettings? && evs[j].node == node)
    ensures CanPush(Run(START, evs[..i]), node) ==> UpToDate(Run(START, evs[..i + 1]), node)
    ensures var s := Run(START, evs);
            && node in s.db.nodes && node in s.conns && s.conns[node].synced && s.conns[node].unsent < CAPACITY
            && Orders(order, s.conns.Keys)
            ==> UpToDate(Next(s, EnforcementTick(order)), node)
  {
    hide Run, UpToDate, CanPush, Orders, Next, Forces;
    if CanPush(Run(START, evs[..i]), node) {
      ForcedNow(evs, i, node);
    }
    PushedForGood(evs, i, node);
    var s := Run(START, evs);
    if Settled(s, node) && s.conns[node].unsent < CAPACITY && Orders(order, s.conns.Keys) {
      TickLeavesUpToDate(evs, node, order);
    }
  }

  // ---- from the tables to the node ----

  /** The configuration a node writes when it applies a pushed message. */
  function Written(m: Msg, certMissing: bool): Json
    requires m.ConfigMsg?
  {
    Skeleton.Effective(m.settings, m.clients, certMissing)
  }

  /** Configurations no node can tell apart load alike. */
  lemma SameLoads(a: Msg, b: Msg, certMissing: bool)
    requires SameConfig(a, b)
    ensures HasInbounds(Written(a, certMissing)) && HasInbounds(Written(b, certMissing))
    ensures AP.Load(AP.Doc(Written(a, certMissing))) == AP.Load(AP.Doc(Written(b, certMissing)))
  {
    Skeleton.ParseRecovers(a.settings, a.clients, certMissing);
    Skeleton.ParseRecovers(b.settings, b.clients, certMissing);
    AP.LoadParsed(Written(a, certMissing));
    AP.LoadParsed(Written(b, certMissing));
  }

  lemma UpToDateServes(s: Panel, node: int, certMissing: bool)
    requires ValidUsers(s.db.users) && UpToDate(s, node)
    ensures var m := LastConfig(s.conns[node].queued).value;
            ServesAssigned(AP.Load(AP.Doc(Written(m, certMissing))), s.db, node, s.now, certMissing)
  {
    hide ServesAssigned, AP.Load;
    SameLoads(LastConfig(s.conns[node].queued).value, FreshConfig(s, node), certMissing);
    LoadServesAssigned(s.db, node, s.now, certMissing);
  }

  /**
   From end to end. In every run of the panel and every legal run of a node's agent,
   crashes, live edits and reloads included: once the agent holds, with no apply
   under way, the configuration that was last queued for it when an enforcement
   tick passed, Xray serves exactly the users that the tables assigned to the node
   and that were active at that tick.
   */
  lemma TickIsServed(evs: seq<Event>, node: int, order: seq<int>,
                     file: AP.File, xray: AP.Xray, agentRun: seq<AP.Event>, certMissing: bool)
    requires var s := Run(START, evs);
             Settled(s, node) && s.conns[node].unsent < CAPACITY && Orders(order, s.conns.Keys)
    requires AP.LegalRun(file, xray, agentRun)
    requires var r := Next(Run(START, evs), EnforcementTick(order));
             var a := AP.Run(AP.Start(file, xray), agentRun);
             && node in r.conns && LastConfig(r.conns[node].queued).Some?
             && LastConfig(r.conns[node].queued).value.ConfigMsg?
             && a.phase.Idle? && a.mem.Known?
             && a.mem.doc == Written(LastConfig(r.conns[node].queued).value, certMissing)
    ensures var r := Next(Run(START, evs), EnforcementTick(order));
            && node in r.db.nodes
            && ServesAssigned(AP.Run(AP.Start(file, xray), agentRun).xray, r.db, node, r.now, certMissing)
  {
    hide Run, ServesAssigned, AP.Load, LastConfig, Settled, Written;
    InvHolds(evs);
    NextKeeps(Run(START, evs), EnforcementTick(order));
    TickLeavesUpToDate(evs, node, order);
    UpToDateServes(Next(Run(START, evs), EnforcementTick(order)), node, certMissing);
    AP.BaselineDescribesXray(file, xray, agentRun);
  }

  /**
   Why a failed forced push must forget the signature: keeping it would leave a
   node whose settings changed looking up to date.
   */
  lemma ForgettingIsNeeded(s: Panel, node: int, settings: Settings)
    requires Inv(s) && Settled(s, node) && s.conns[node].unsent == CAPACITY
    requires node in s.cache && settings != s.db.nodes[node].settings
    ensures var e := Save(s, node, settings);
            !Coherent(e.(unpushed := e.unpushed - {node}), node) && Coherent(ForceSync(e, node), node)
  {
    assert Coherent(s, node);
  }
}
