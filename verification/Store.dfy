/**
 The panel's tables and its traffic ledgers (internal/panel/store.go). Tables
 are maps, each transaction is one step, and identifiers come from AUTOINCREMENT
 columns, so a deleted row's identifier is never issued again.
 */
module StoreSpec {
  import opened Traffic
  import Ordering

  const SECONDS_PER_DAY := 86400

  datatype User = User(
    username: string,
    uuid: string,
    subToken: string,
    dataLimit: int,      // bytes; 0 = unlimited
    dataUsed: int,       // bytes, aggregate across nodes
    expireAt: int,       // unix seconds; 0 = never
    enabled: bool,
    resetDay: int,       // 0 = no monthly reset
    lastReset: int,
    sessionEpoch: int,
    note: string)
  {
    /** Enabled, not expired and under quota: a user that nodes have to serve. */
    predicate Active(now: int) {
      && enabled
      && !(expireAt > 0 && now >= expireAt)
      && !(dataLimit > 0 && dataUsed >= dataLimit)
    }
  }

  datatype Settings = Settings(
    realityDest: string,
    realityServerName: string,
    realityPrivateKey: string,
    realityShortId: string,
    tlsDomain: string)

  datatype Node = Node(settings: Settings, trafficSeq: int)

  /** A table of byte counters keyed by (user or node, node or day). */
  type Ledger = map<(int, int), Bytes>

  datatype Tables = Tables(
    users: map<int, User>,
    nodes: map<int, Node>,
    userNodes: set<(int, int)>,
    nodeTraffic: Ledger,       // (user, node)
    trafficDaily: Ledger,      // (user, day)
    nodeDaily: Ledger,         // (node, day)
    devices: set<(int, int, string)>,   // (user, node, source address)
    nextUser: int,
    nextNode: int)

  function DayOf(now: int): int {
    now / SECONDS_PER_DAY
  }

  /** A time falls on the day that starts at the last multiple of 86400 seconds. */
  lemma DayHolds(now: int, k: int)
    ensures k == DayOf(now) <==> k * 86400 <= now < (k + 1) * 86400
  {
  }

  function Charge(users: map<int, User>, user: int, n: int): map<int, User> {
    if user in users then users[user := users[user].(dataUsed := users[user].dataUsed + n)] else users
  }

  function AddTraffic(t: Tables, user: int, node: int, b: Bytes, now: int): Tables {
    t.(users := Charge(t.users, user, b.up + b.down),
       nodeTraffic := AddTo(t.nodeTraffic, (user, node), b),
       trafficDaily := AddTo(t.trafficDaily, (user, DayOf(now)), b),
       nodeDaily := AddTo(t.nodeDaily, (node, DayOf(now)), b))
  }

  function WithoutRow(m: Ledger, k: int): Ledger {
    map c | c in m && c.0 != k :: m[c]
  }

  function WithoutColumn(m: Ledger, k: int): Ledger {
    map c | c in m && c.1 != k :: m[c]
  }

  function ResetUserTraffic(t: Tables, user: int): Tables {
    t.(users := if user in t.users then t.users[user := t.users[user].(dataUsed := 0)] else t.users,
       nodeTraffic := WithoutRow(t.nodeTraffic, user))
  }

  function Edit(users: map<int, User>, user: int, stale: User): map<int, User> {
    if user in users then
      users[user := users[user].(dataLimit := stale.dataLimit, expireAt := stale.expireAt, enabled := stale.enabled,
                                 resetDay := stale.resetDay, note := stale.note)]
    else users
  }

  /** Writes back the editable columns of a row read earlier; the counters are not among them. */
  function UpdateUser(t: Tables, user: int, stale: User): Tables {
    t.(users := Edit(t.users, user, stale))
  }

  function DeleteUser(t: Tables, user: int): Tables {
    t.(userNodes := (set p | p in t.userNodes && p.0 != user),
       nodeTraffic := WithoutRow(t.nodeTraffic, user),
       devices := (set c | c in t.devices && c.0 != user),
       users := t.users - {user})
  }

  function DeleteNode(t: Tables, node: int): Tables {
    t.(userNodes := (set p | p in t.userNodes && p.1 != node),
       nodeTraffic := WithoutColumn(t.nodeTraffic, node),
       nodeDaily := WithoutRow(t.nodeDaily, node),
       devices := (set c | c in t.devices && c.1 != node),
       nodes := t.nodes - {node})
  }

  function SetUserNodes(t: Tables, user: int, nodes: set<int>): Tables {
    t.(userNodes := (set p | p in t.userNodes && p.0 != user) + (set n | n in nodes :: (user, n)))
  }

  /** Usernames and subscription tokens are unique columns. */
  predicate Taken(t: Tables, row: User) {
    exists u :: u in t.users && (t.users[u].username == row.username || t.users[u].subToken == row.subToken)
  }

  /** Fails on a taken username or token; a new row starts with zeroed counters. */
  function CreateUser(t: Tables, row: User): Tables {
    if Taken(t, row) then t
    else
      t.(users := t.users[t.nextUser := row.(dataUsed := 0, lastReset := 0, sessionEpoch := 0)],
         nextUser := t.nextUser + 1)
  }

  function CreateNode(t: Tables, settings: Settings): Tables {
    t.(nodes := t.nodes[t.nextNode := Node(settings, 0)], nextNode := t.nextNode + 1)
  }

  function SetLastReset(t: Tables, user: int, ts: int): Tables {
    t.(users := if user in t.users then t.users[user := t.users[user].(lastReset := ts)] else t.users)
  }

  function SetUuid(t: Tables, user: int, uuid: string): Tables {
    t.(users := if user in t.users then t.users[user := t.users[user].(uuid := uuid)] else t.users)
  }

  /** Ends every portal session of a user. */
  function BumpEpoch(t: Tables, user: int): Tables {
    t.(users := if user !in t.users then t.users
                else t.users[user := t.users[user].(sessionEpoch := t.users[user].sessionEpoch + 1)])
  }

  function SeeDevice(t: Tables, user: int, node: int, ip: string): Tables {
    t.(devices := t.devices + {(user, node, ip)})
  }

  /** The users assigned to a node, in identifier order. */
  function UserIdsFor(t: Tables, node: int): (ids: seq<int>)
    ensures forall u :: u in ids <==> u in t.users && (u, node) in t.userNodes
    ensures forall i, j :: 0 <= i < j < |ids| ==> ids[i] < ids[j]
  {
    Ordering.Ordered(set u | u in t.users && (u, node) in t.userNodes)
  }

  /** Usernames are unique and identifiers have all been issued. */
  ghost predicate WellFormed(t: Tables) {
    && (forall u :: u in t.users ==> u < t.nextUser)
    && (forall n :: n in t.nodes ==> n < t.nextNode)
    && (forall u, v :: u in t.users && v in t.users && t.users[u].username == t.users[v].username ==> u == v)
  }
}

/** What the ledgers owe each other over every run of store operations. */
module Ledgers {
  import opened Traffic
  import opened StoreSpec

  datatype Op =
    | Add(user: int, node: int, bytes: Bytes, now: int)
    | Reset(user: int)
    | Update(user: int, stale: User)
    | RemoveUser(user: int)
    | RemoveNode(node: int)
    | NewUser(row: User)
    | NewNode(settings: Settings)
    | Assign(user: int, nodes: set<int>)
    | Bump(user: int)
    | Rekey(user: int, uuid: string)
    | Stamp(user: int, lastReset: int)
    | Seen(user: int, node: int, ip: string)

  function Apply(t: Tables, op: Op): Tables {
    match op
    // Callers only ever hold identifiers that the users table has issued.
    case Add(user, node, bytes, now) => if user < t.nextUser then AddTraffic(t, user, node, bytes, now) else t
    case Reset(user) => ResetUserTraffic(t, user)
    case Update(user, stale) => UpdateUser(t, user, stale)
    case RemoveUser(user) => DeleteUser(t, user)
    case RemoveNode(node) => DeleteNode(t, node)
    case NewUser(row) => CreateUser(t, row)
    case NewNode(settings) => CreateNode(t, settings)
    case Assign(user, nodes) => SetUserNodes(t, user, nodes)
    case Bump(user) => BumpEpoch(t, user)
    case Rekey(user, uuid) => SetUuid(t, user, uuid)
    case Stamp(user, lastReset) => SetLastReset(t, user, lastReset)
    case Seen(user, node, ip) => SeeDevice(t, user, node, ip)
  }

  function ApplyAll(t: Tables, ops: seq<Op>): Tables {
    if ops == [] then t else Apply(ApplyAll(t, ops[..|ops| - 1]), ops[|ops| - 1])
  }

  /** Usernames stay unique and identifiers are only ever issued. */
  lemma ApplyWellFormed(t: Tables, op: Op)
    requires WellFormed(t)
    ensures WellFormed(Apply(t, op)) && t.nextUser <= Apply(t, op).nextUser
  {
    hide AddTo, WithoutRow, WithoutColumn;
  }

  /**
   The tables together with three histories of what was erased. `dropped(u)`: bytes
   in rows of user `u` that went with a deleted node since the user's last reset;
   `cleared(u)`: aggregate usage erased by resets; `gone(day, d)`: daily bytes that
   went with a deleted node.
   */
  datatype Books = Books(t: Tables, dropped: int -> int, cleared: int -> int, gone: (int, Direction) -> int)

  ghost function Next(b: Books, op: Op): Books {
    match op
    case Reset(user) =>
      Books(Apply(b.t, op),
            u => if u == user then 0 else b.dropped(u),
            u => if u == user then b.cleared(u) + UsedBy(b.t, u) else b.cleared(u),
            b.gone)
    case RemoveNode(node) =>
      Books(Apply(b.t, op),
            u => b.dropped(u) + CellTotal(b.t.nodeTraffic, (u, node)),
            b.cleared,
            (day, d) => b.gone(day, d) + Count(b.t.nodeDaily, (node, day), d))
    case _ => b.(t := Apply(b.t, op))
  }

  function CellTotal(m: Ledger, c: (int, int)): int {
    Count(m, c, Up) + Count(m, c, Down)
  }

  function UsedBy(t: Tables, user: int): int {
    if user in t.users then t.users[user].dataUsed else 0
  }

  ghost function Run(b: Books, ops: seq<Op>): Books {
    if ops == [] then b else Next(Run(b, ops[..|ops| - 1]), ops[|ops| - 1])
  }

  const EMPTY_TABLES := Tables(map[], map[], {}, map[], map[], map[], {}, 1, 1)

  function Fresh(): Books {
    Books(EMPTY_TABLES, u => 0, u => 0, (day, d) => 0)
  }

  // ---- the invariant ----

  ghost function RowTotal(m: Ledger, k: int): int {
    Sum(Row(m, k), Up) + Sum(Row(m, k), Down)
  }

  /** A live user's aggregate is its per-node breakdown plus what went with deleted nodes. */
  ghost predicate UserBalances(b: Books, user: int) {
    user in b.t.users ==>
      b.t.users[user].dataUsed == RowTotal(b.t.nodeTraffic, user) + b.dropped(user)
  }

  /** A live user's daily history is its aggregate plus what resets cleared. */
  ghost predicate HistoryBalances(b: Books, user: int) {
    user in b.t.users ==>
      RowTotal(b.t.trafficDaily, user) == b.t.users[user].dataUsed + b.cleared(user)
  }

  /** On each day, the users' side is the nodes' side plus what went with deleted nodes. */
  ghost predicate DayBalances(b: Books, day: int, d: Direction) {
    Sum(Column(b.t.trafficDaily, day), d) == Sum(Column(b.t.nodeDaily, day), d) + b.gone(day, d)
  }

  /** Nothing is recorded under an identifier that has not been issued yet. */
  ghost predicate Issued(b: Books) {
    && WellFormed(b.t)
    && (forall c :: c in b.t.nodeTraffic ==> c.0 < b.t.nextUser)
    && (forall c :: c in b.t.trafficDaily ==> c.0 < b.t.nextUser)
    && (forall u :: b.t.nextUser <= u ==> b.dropped(u) == 0 && b.cleared(u) == 0)
  }

  ghost predicate Inv(b: Books) {
    && Issued(b)
    && (forall u :: UserBalances(b, u))
    && (forall u :: HistoryBalances(b, u))
    && (forall day, d :: DayBalances(b, day, d))
  }

  // ---- each operation keeps it ----

  lemma AddBalances(b: Books, user: int, node: int, bytes: Bytes, now: int, u: int)
    requires UserBalances(b, u) && HistoryBalances(b, u)
    ensures var c := b.(t := AddTraffic(b.t, user, node, bytes, now));
            UserBalances(c, u) && HistoryBalances(c, u)
  {
    RowAddTo(b.t.nodeTraffic, (user, node), bytes, u, Up);
    RowAddTo(b.t.nodeTraffic, (user, node), bytes, u, Down);
    RowAddTo(b.t.trafficDaily, (user, DayOf(now)), bytes, u, Up);
    RowAddTo(b.t.trafficDaily, (user, DayOf(now)), bytes, u, Down);
  }

  lemma AddDayBalances(b: Books, user: int, node: int, bytes: Bytes, now: int, day: int, d: Direction)
    requires DayBalances(b, day, d)
    ensures DayBalances(b.(t := AddTraffic(b.t, user, node, bytes, now)), day, d)
  {
    ColumnAddTo(b.t.trafficDaily, (user, DayOf(now)), bytes, day, d);
    ColumnAddTo(b.t.nodeDaily, (node, DayOf(now)), bytes, day, d);
  }

  lemma AddKeeps(b: Books, user: int, node: int, bytes: Bytes, now: int)
    requires Inv(b) && user < b.t.nextUser
    ensures Inv(b.(t := AddTraffic(b.t, user, node, bytes, now)))
  {
    var c := b.(t := AddTraffic(b.t, user, node, bytes, now));
    forall u
      ensures UserBalances(c, u) && HistoryBalances(c, u)
    {
      assert UserBalances(b, u) && HistoryBalances(b, u);
      AddBalances(b, user, node, bytes, now, u);
    }
    forall day, d
      ensures DayBalances(c, day, d)
    {
      assert DayBalances(b, day, d);
      AddDayBalances(b, user, node, bytes, now, day, d);
    }
    assert Issued(c);
  }

  lemma ResetKeeps(b: Books, user: int)
    requires Inv(b)
    ensures Inv(Next(b, Reset(user)))
  {
    var c := Next(b, Reset(user));
    forall u
      ensures UserBalances(c, u) && HistoryBalances(c, u)
    {
      assert UserBalances(b, u) && HistoryBalances(b, u);
      RowOfWithoutRow(b.t.nodeTraffic, user, u);
    }
    forall day, d
      ensures DayBalances(c, day, d)
    {
      assert DayBalances(b, day, d);
    }
    assert Issued(c);
  }

  lemma RowOfWithoutRow(m: Ledger, k: int, u: int)
    ensures Row(WithoutRow(m, k), u) == if u == k then map[] else Row(m, u)
  {
  }

  lemma RemoveUserKeeps(b: Books, user: int)
    requires Inv(b)
    ensures Inv(Next(b, RemoveUser(user)))
  {
    var c := Next(b, RemoveUser(user));
    forall u
      ensures UserBalances(c, u) && HistoryBalances(c, u)
    {
      assert UserBalances(b, u) && HistoryBalances(b, u);
      RowOfWithoutRow(b.t.nodeTraffic, user, u);
    }
    forall day, d
      ensures DayBalances(c, day, d)
    {
      assert DayBalances(b, day, d);
    }
    assert Issued(c);
  }

  /** Dropping a node's column takes exactly that node's cell out of each user's row. */
  lemma RowWithoutColumn(m: Ledger, node: int, u: int, d: Direction)
    ensures Sum(Row(WithoutColumn(m, node), u), d) == Sum(Row(m, u), d) - Count(m, (u, node), d)
  {
    if (u, node) in m {
      SumRemove(Row(m, u), (u, node), d);
      assert Row(WithoutColumn(m, node), u) == Row(m, u) - {(u, node)};
    } else {
      assert Row(WithoutColumn(m, node), u) == Row(m, u);
    }
  }

  lemma ColumnWithoutRow(m: Ledger, node: int, day: int, d: Direction)
    ensures Sum(Column(WithoutRow(m, node), day), d) == Sum(Column(m, day), d) - Count(m, (node, day), d)
  {
    if (node, day) in m {
      SumRemove(Column(m, day), (node, day), d);
      assert Column(WithoutRow(m, node), day) == Column(m, day) - {(node, day)};
    } else {
      assert Column(WithoutRow(m, node), day) == Column(m, day);
    }
  }

  lemma RemoveNodeBalances(b: Books, node: int, u: int)
    requires UserBalances(b, u) && HistoryBalances(b, u)
    ensures UserBalances(Next(b, RemoveNode(node)), u) && HistoryBalances(Next(b, RemoveNode(node)), u)
  {
    RowWithoutColumn(b.t.nodeTraffic, node, u, Up);
    RowWithoutColumn(b.t.nodeTraffic, node, u, Down);
  }

  lemma RemoveNodeDayBalances(b: Books, node: int, day: int, d: Direction)
    requires DayBalances(b, day, d)
    ensures DayBalances(Next(b, RemoveNode(node)), day, d)
  {
    ColumnWithoutRow(b.t.nodeDaily, node, day, d);
  }

  lemma RemoveNodeIssued(b: Books, node: int)
    requires Issued(b)
    ensures Issued(Next(b, RemoveNode(node)))
  {
  }

  lemma RemoveNodeKeeps(b: Books, node: int)
    requires Inv(b)
    ensures Inv(Next(b, RemoveNode(node)))
  {
    var c := Next(b, RemoveNode(node));
    forall u
      ensures UserBalances(c, u) && HistoryBalances(c, u)
    {
      assert UserBalances(b, u) && HistoryBalances(b, u);
      RemoveNodeBalances(b, node, u);
    }
    forall day, d
      ensures DayBalances(c, day, d)
    {
      assert DayBalances(b, day, d);
      RemoveNodeDayBalances(b, node, day, d);
    }
    RemoveNodeIssued(b, node);
  }

  lemma NewUserKeeps(b: Books, row: User)
    requires Inv(b)
    ensures Inv(Next(b, NewUser(row)))
  {
    var c := Next(b, NewUser(row));
    forall u
      ensures UserBalances(c, u) && HistoryBalances(c, u)
    {
      assert UserBalances(b, u) && HistoryBalances(b, u);
      if u == b.t.nextUser {
        assert Row(b.t.nodeTraffic, u) == map[] && Row(b.t.trafficDaily, u) == map[];
      }
    }
    forall day, d
      ensures DayBalances(c, day, d)
    {
      assert DayBalances(b, day, d);
    }
    assert Issued(c);
  }

  /** Operations that touch neither a counter nor the set of users. */
  lemma OtherKeeps(b: Books, op: Op)
    requires Inv(b) && !(op.Add? || op.Reset? || op.RemoveUser? || op.RemoveNode? || op.NewUser?)
    ensures Inv(Next(b, op))
  {
    var c := Next(b, op);
    forall u
      ensures UserBalances(c, u) && HistoryBalances(c, u)
    {
      assert UserBalances(b, u) && HistoryBalances(b, u);
    }
    forall day, d
      ensures DayBalances(c, day, d)
    {
      assert DayBalances(b, day, d);
    }
    assert Issued(c);
  }

  lemma NextKeeps(b: Books, op: Op)
    requires Inv(b)
    ensures Inv(Next(b, op))
  {
    match op
    case Add(user, node, bytes, now) =>
      if user < b.t.nextUser {
        AddKeeps(b, user, node, bytes, now);
      }
    case Reset(user) => ResetKeeps(b, user);
    case RemoveUser(user) => RemoveUserKeeps(b, user);
    case RemoveNode(node) => RemoveNodeKeeps(b, node);
    case NewUser(row) => NewUserKeeps(b, row);
    case _ => OtherKeeps(b, op);
  }

  // ---- the theorems ----

  lemma FreshBalances()
    ensures Inv(Fresh())
  {
  }

  lemma {:induction false} InvHolds(ops: seq<Op>)
    ensures Inv(Run(Fresh(), ops))
  {
    if ops == [] {
      FreshBalances();
    } else {
      InvHolds(ops[..|ops| - 1]);
      NextKeeps(Run(Fresh(), ops[..|ops| - 1]), ops[|ops| - 1]);
    }
  }

  /**
   The ledgers balance exactly, in every run and for counters of any sign: usage is
   the per-node breakdown plus what went with deleted nodes, daily history is usage
   plus what resets cleared, and each day's user side is its node side plus what
   went with deleted nodes.
   */
  lemma LedgersBalance(ops: seq<Op>, user: int, day: int, d: Direction)
    ensures var b := Run(Fresh(), ops);
            && (user in b.t.users ==>
                  && b.t.users[user].dataUsed == RowTotal(b.t.nodeTraffic, user) + b.dropped(user)
                  && RowTotal(b.t.trafficDaily, user) == b.t.users[user].dataUsed + b.cleared(user))
            && Sum(Column(b.t.trafficDaily, day), d) == Sum(Column(b.t.nodeDaily, day), d) + b.gone(day, d)
  {
    InvHolds(ops);
    var b := Run(Fresh(), ops);
    assert UserBalances(b, user) && HistoryBalances(b, user) && DayBalances(b, day, d);
  }

  /** Every report in the run counts bytes upwards. */
  ghost predicate NonNegative(ops: seq<Op>) {
    forall op :: op in ops && op.Add? ==> op.bytes.up >= 0 && op.bytes.down >= 0
  }

  ghost predicate KeepsNodes(ops: seq<Op>) {
    forall op :: op in ops ==> !op.RemoveNode?
  }

  ghost predicate Positive<K(!new)>(m: map<K, Bytes>) {
    forall k :: k in m ==> m[k].up >= 0 && m[k].down >= 0
  }

  ghost predicate UsagePositive(users: map<int, User>) {
    forall u :: u in users ==> users[u].dataUsed >= 0
  }

  /** Nothing recorded anywhere is negative. */
  ghost predicate AllNonNegative(b: Books) {
    && Positive(b.t.nodeTraffic) && Positive(b.t.nodeDaily) && UsagePositive(b.t.users)
    && (forall u :: b.dropped(u) >= 0 && b.cleared(u) >= 0)
    && (forall day, d :: b.gone(day, d) >= 0)
  }

  lemma AddToPositive(m: Ledger, c: (int, int), b: Bytes)
    requires Positive(m) && b.up >= 0 && b.down >= 0
    ensures Positive(AddTo(m, c, b))
  {
  }

  lemma NextNonNegative(b: Books, op: Op)
    requires AllNonNegative(b) && (op.Add? ==> op.bytes.up >= 0 && op.bytes.down >= 0)
    ensures AllNonNegative(Next(b, op))
  {
    hide AddTo, Taken;
    match op
    case Add(user, node, bytes, now) =>
      AddToPositive(b.t.nodeTraffic, (user, node), bytes);
      AddToPositive(b.t.nodeDaily, (node, DayOf(now)), bytes);
    case _ =>
  }

  lemma {:induction false} RunNonNegative(ops: seq<Op>)
    requires NonNegative(ops)
    ensures AllNonNegative(Run(Fresh(), ops))
  {
    if ops != [] {
      assert ops[|ops| - 1] in ops;
      RunNonNegative(ops[..|ops| - 1]);
      NextNonNegative(Run(Fresh(), ops[..|ops| - 1]), ops[|ops| - 1]);
    }
  }

  lemma {:induction false} NothingDropped(ops: seq<Op>)
    requires KeepsNodes(ops)
    ensures forall u :: Run(Fresh(), ops).dropped(u) == 0
    ensures forall day, d :: Run(Fresh(), ops).gone(day, d) == 0
  {
    if ops != [] {
      assert ops[|ops| - 1] in ops;
      NothingDropped(ops[..|ops| - 1]);
    }
  }

  /**
   A live user's aggregate covers its per-node breakdown and never exceeds its
   daily history; each day's user side covers its node side. When no node was ever
   deleted the first and the last are equalities.
   */
  lemma LedgersCover(ops: seq<Op>, user: int, day: int, d: Direction)
    requires NonNegative(ops)
    ensures var t := Run(Fresh(), ops).t;
            && (user in t.users ==>
                  RowTotal(t.nodeTraffic, user) <= t.users[user].dataUsed <= RowTotal(t.trafficDaily, user))
            && Sum(Column(t.nodeDaily, day), d) <= Sum(Column(t.trafficDaily, day), d)
            && (KeepsNodes(ops) && user in t.users ==> RowTotal(t.nodeTraffic, user) == t.users[user].dataUsed)
            && (KeepsNodes(ops) ==> Sum(Column(t.nodeDaily, day), d) == Sum(Column(t.trafficDaily, day), d))
  {
    var b := Run(Fresh(), ops);
    InvHolds(ops);
    RunNonNegative(ops);
    assert UserBalances(b, user) && HistoryBalances(b, user) && DayBalances(b, day, d);
    if KeepsNodes(ops) {
      NothingDropped(ops);
    }
  }

  // ---- stale writes ----

  function AddAll(t: Tables, adds: seq<Op>): Tables
    decreases adds
  {
    if adds == [] then t
    else if adds[0].Add? then AddAll(AddTraffic(t, adds[0].user, adds[0].node, adds[0].bytes, adds[0].now), adds[1..])
    else AddAll(t, adds[1..])
  }

  lemma UpdateCommutes(t: Tables, user: int, stale: User, who: int, node: int, bytes: Bytes, now: int)
    ensures UpdateUser(AddTraffic(t, who, node, bytes, now), user, stale) ==
            AddTraffic(UpdateUser(t, user, stale), who, node, bytes, now)
  {
  }

  /**
   An edit form read before any amount of traffic and written back after it loses
   none of that traffic: the result is as if the edit had come first.
   */
  lemma {:induction false} StaleUpdateKeepsTraffic(t: Tables, user: int, stale: User, adds: seq<Op>)
    ensures UpdateUser(AddAll(t, adds), user, stale) == AddAll(UpdateUser(t, user, stale), adds)
    decreases adds
  {
    if adds != [] {
      if adds[0].Add? {
        var a := adds[0];
        UpdateCommutes(t, user, stale, a.user, a.node, a.bytes, a.now);
        StaleUpdateKeepsTraffic(AddTraffic(t, a.user, a.node, a.bytes, a.now), user, stale, adds[1..]);
      } else {
        StaleUpdateKeepsTraffic(t, user, stale, adds[1..]);
      }
    }
  }
}

/** How store operations and time move users between active and inactive. */
module Activity {
  import opened Traffic
  import opened StoreSpec
  import opened Ledgers

  /** An edit of the user, or a reset of its counters: the only operations that can make it active again. */
  predicate Revives(op: Op, u: int) {
    (op.Update? || op.Reset?) && op.user == u
  }

  /** An existing user is over its quota, or no user of that number exists any more. */
  predicate Spent(t: Tables, u: int) {
    u < t.nextUser && (u in t.users ==> t.users[u].dataLimit > 0 && t.users[u].dataUsed >= t.users[u].dataLimit)
  }

  predicate Inactive(t: Tables, u: int, now: int) {
    u < t.nextUser && (u in t.users ==> !t.users[u].Active(now))
  }

  lemma ApplyKeepsInactive(t: Tables, op: Op, u: int, now: int, later: int)
    requires Inactive(t, u, now) && now <= later && !Revives(op, u)
    requires op.Add? ==> op.bytes.up >= 0 && op.bytes.down >= 0
    ensures Inactive(Apply(t, op), u, later)
  {
    hide AddTo, WithoutRow, WithoutColumn, Taken;
  }

  lemma ApplyKeepsSpent(t: Tables, op: Op, u: int)
    requires Spent(t, u) && !Revives(op, u)
    requires op.Add? ==> op.bytes.up >= 0 && op.bytes.down >= 0
    ensures Spent(Apply(t, op), u)
  {
    hide AddTo, WithoutRow, WithoutColumn, Taken;
  }

  /** Traffic and time alone, and every other operation, only ever take the active state away. */
  lemma {:induction false} InactiveUntilRevived(t: Tables, ops: seq<Op>, u: int, now: int, later: int)
    requires Inactive(t, u, now) && now <= later
    requires NonNegative(ops) && forall op :: op in ops ==> !Revives(op, u)
    ensures Inactive(ApplyAll(t, ops), u, later)
  {
    hide Apply;
    if ops != [] {
      var rest, last := ops[..|ops| - 1], ops[|ops| - 1];
      assert last in ops;
      InactiveUntilRevived(t, rest, u, now, later);
      ApplyKeepsInactive(ApplyAll(t, rest), last, u, later, later);
    }
  }

  lemma {:induction false} SpentUntilRevived(t: Tables, ops: seq<Op>, u: int)
    requires Spent(t, u)
    requires NonNegative(ops) && forall op :: op in ops ==> !Revives(op, u)
    ensures Spent(ApplyAll(t, ops), u)
  {
    hide Apply, Spent;
    if ops != [] {
      var rest, last := ops[..|ops| - 1], ops[|ops| - 1];
      assert last in ops;
      SpentUntilRevived(t, rest, u);
      ApplyKeepsSpent(ApplyAll(t, rest), last, u);
    }
  }

  /** The user is switched off, or no user of that number exists any more. */
  predicate SwitchedOff(t: Tables, u: int) {
    u < t.nextUser && (u in t.users ==> !t.users[u].enabled)
  }

  /** The user's time has run out at `now`, or no user of that number exists any more. */
  predicate Expired(t: Tables, u: int, now: int) {
    u < t.nextUser && (u in t.users ==> 0 < t.users[u].expireAt <= now)
  }

  lemma ApplyKeepsOff(t: Tables, op: Op, u: int, now: int)
    requires !(op.Update? && op.user == u)
    ensures SwitchedOff(t, u) ==> SwitchedOff(Apply(t, op), u)
    ensures Expired(t, u, now) ==> Expired(Apply(t, op), u, now)
  {
    hide AddTo, WithoutRow, WithoutColumn, Taken;
  }

  lemma {:induction false} OffUntilEdited(t: Tables, ops: seq<Op>, u: int, now: int)
    requires forall op :: op in ops ==> !(op.Update? && op.user == u)
    ensures SwitchedOff(t, u) ==> SwitchedOff(ApplyAll(t, ops), u)
    ensures Expired(t, u, now) ==> Expired(ApplyAll(t, ops), u, now)
  {
    if ops != [] {
      hide Apply, SwitchedOff, Expired;
      var rest, last := ops[..|ops| - 1], ops[|ops| - 1];
      assert last in ops;
      OffUntilEdited(t, rest, u, now);
      ApplyKeepsOff(ApplyAll(t, rest), last, u, now);
    }
  }

  /**
   An edit that switches a user off keeps it inactive at every time, whatever traffic
   and resets come in between, until it is edited again.
   */
  lemma EditSwitchesOff(t: Tables, u: int, row: User, ops: seq<Op>, now: int)
    requires u in t.users && u < t.nextUser && !row.enabled
    requires forall op :: op in ops ==> !(op.Update? && op.user == u)
    ensures var r := ApplyAll(UpdateUser(t, u, row), ops);
            u in r.users ==> !r.users[u].enabled && !r.users[u].Active(now)
  {
    OffUntilEdited(UpdateUser(t, u, row), ops, u, now);
  }

  /** From its expiry on a user is inactive, whatever traffic and resets come in between, until it is edited. */
  lemma ExpiryHolds(t: Tables, u: int, ops: seq<Op>, now: int)
    requires u in t.users && u < t.nextUser && 0 < t.users[u].expireAt <= now
    requires forall op :: op in ops ==> !(op.Update? && op.user == u)
    ensures var r := ApplyAll(t, ops);
            u in r.users ==> !r.users[u].Active(now)
  {
    OffUntilEdited(t, ops, u, now);
  }

  /**
   The report that reaches a user's quota keeps it off every node, at any hour and
   through any later operations, until it is edited or its counters are reset.
   */
  lemma QuotaHolds(t: Tables, u: int, node: int, b: Bytes, at: int, ops: seq<Op>, now: int)
    requires u in t.users && u < t.nextUser && t.users[u].dataLimit > 0
    requires t.users[u].dataUsed + b.up + b.down >= t.users[u].dataLimit
    requires NonNegative(ops) && forall op :: op in ops ==> !Revives(op, u)
    ensures var r := ApplyAll(AddTraffic(t, u, node, b, at), ops);
            u in r.users ==> !r.users[u].Active(now)
  {
    SpentUntilRevived(AddTraffic(t, u, node, b, at), ops, u);
  }
}
