/**
 Applying a reported batch to the tables (internal/panel/traffic.go): who is
 credited, when a batch is skipped, and how this refines the panel's side of the
 accounting protocol.
 */
module IngestSpec {
  import opened Traffic
  import opened StoreSpec
  import P = TrafficProtocol

  /** The users a node serves, by username; usernames are unique. */
  function Allowed(t: Tables, node: int): map<string, int>
    requires WellFormed(t)
  {
    map u | u in t.users && (u, node) in t.userNodes :: t.users[u].username := u
  }

  function CreditOne(t: Tables, node: int, allowed: map<string, int>, it: Item, now: int): Tables {
    if it.bytes.IsZero() || it.email !in allowed then t
    else AddTraffic(t, allowed[it.email], node, it.bytes, now)
  }

  function CreditAll(t: Tables, node: int, allowed: map<string, int>, items: seq<Item>, now: int): Tables {
    if items == [] then t
    else CreditOne(CreditAll(t, node, allowed, items[..|items| - 1], now), node, allowed, items[|items| - 1], now)
  }

  function SetSeq(t: Tables, node: int, seqNo: int): Tables {
    if node in t.nodes && seqNo != 0 then t.(nodes := t.nodes[node := t.nodes[node].(trafficSeq := seqNo)]) else t
  }

  /** Nothing happens for an unknown node or a repeated number. */
  function Ingest(t: Tables, node: int, seqNo: int, items: seq<Item>, now: int): Tables
    requires WellFormed(t)
  {
    if node !in t.nodes then t
    else if seqNo != 0 && seqNo == t.nodes[node].trafficSeq then t
    else SetSeq(CreditAll(t, node, Allowed(t, node), items, now), node, seqNo)
  }

  function When(c: bool, n: int): int {
    if c then n else 0
  }

  /** What a batch is worth to user `u` of table `t`: nothing unless the node serves the user. */
  function Worth(t: Tables, node: int, items: seq<Item>, u: int, d: Direction): int {
    if u in t.users && (u, node) in t.userNodes then Reported(items, t.users[u].username, d) else 0
  }

  function WorthOne(t: Tables, node: int, it: Item, u: int, d: Direction): int {
    if u in t.users && (u, node) in t.userNodes then Share(it, t.users[u].username, d) else 0
  }

  /** Everything but the counters is as before. */
  predicate SameShape(t: Tables, s: Tables) {
    && s.users.Keys == t.users.Keys && s.nodes == t.nodes && s.userNodes == t.userNodes && s.devices == t.devices
    && s.nextUser == t.nextUser && s.nextNode == t.nextNode
    && forall u :: u in t.users ==> s.users[u] == t.users[u].(dataUsed := s.users[u].dataUsed)
  }

  lemma AllowedIs(t: Tables, node: int, it: Item, u: int)
    requires WellFormed(t)
    ensures it.email in Allowed(t, node) && Allowed(t, node)[it.email] == u <==>
            u in t.users && (u, node) in t.userNodes && t.users[u].username == it.email
  {
  }

  lemma CreditOneShape(t: Tables, s: Tables, node: int, it: Item, now: int)
    requires WellFormed(t) && SameShape(t, s)
    ensures SameShape(t, CreditOne(s, node, Allowed(t, node), it, now))
  {
  }

  /** One item charges exactly the user it names, by exactly its bytes. */
  lemma CreditOneMoves(t: Tables, s: Tables, node: int, it: Item, now: int, u: int)
    requires WellFormed(t) && u in t.users && u in s.users
    ensures var r := CreditOne(s, node, Allowed(t, node), it, now);
            u in r.users &&
            r.users[u].dataUsed == s.users[u].dataUsed + WorthOne(t, node, it, u, Up) + WorthOne(t, node, it, u, Down)
  {
  }

  lemma CreditOneCells(t: Tables, s: Tables, node: int, it: Item, now: int, u: int, k: int, d: Direction)
    requires WellFormed(t)
    ensures var r := CreditOne(s, node, Allowed(t, node), it, now);
            && Count(r.nodeTraffic, (u, k), d) ==
               Count(s.nodeTraffic, (u, k), d) + When(k == node, WorthOne(t, node, it, u, d))
            && Count(r.trafficDaily, (u, k), d) ==
               Count(s.trafficDaily, (u, k), d) + When(k == DayOf(now), WorthOne(t, node, it, u, d))
  {
  }

  lemma {:induction false} CreditAllMoves(t: Tables, node: int, items: seq<Item>, now: int, u: int)
    requires WellFormed(t)
    ensures var r := CreditAll(t, node, Allowed(t, node), items, now);
            && SameShape(t, r)
            && (u in t.users ==>
                  r.users[u].dataUsed ==
                    t.users[u].dataUsed + Worth(t, node, items, u, Up) + Worth(t, node, items, u, Down))
  {
    if items != [] {
      var rest := items[..|items| - 1];
      CreditAllMoves(t, node, rest, now, u);
      CreditOneShape(t, CreditAll(t, node, Allowed(t, node), rest, now), node, items[|items| - 1], now);
      if u in t.users {
        CreditOneMoves(t, CreditAll(t, node, Allowed(t, node), rest, now), node, items[|items| - 1], now, u);
      }
    }
  }

  lemma {:induction false} CreditAllCells(t: Tables, node: int, items: seq<Item>, now: int,
                                          u: int, k: int, d: Direction)
    requires WellFormed(t)
    ensures var r := CreditAll(t, node, Allowed(t, node), items, now);
            && Count(r.nodeTraffic, (u, k), d) ==
               Count(t.nodeTraffic, (u, k), d) + When(k == node, Worth(t, node, items, u, d))
            && Count(r.trafficDaily, (u, k), d) ==
               Count(t.trafficDaily, (u, k), d) + When(k == DayOf(now), Worth(t, node, items, u, d))
  {
    if items != [] {
      var rest := items[..|items| - 1];
      CreditAllCells(t, node, rest, now, u, k, d);
      CreditOneCells(t, CreditAll(t, node, Allowed(t, node), rest, now), node, items[|items| - 1], now, u, k, d);
    }
  }

  lemma CreditOneNodeDays(t: Tables, s: Tables, node: int, it: Item, now: int, n: int, k: int, d: Direction)
    requires WellFormed(t)
    ensures Count(CreditOne(s, node, Allowed(t, node), it, now).nodeDaily, (n, k), d) ==
            Count(s.nodeDaily, (n, k), d) + When(n == node && k == DayOf(now), VolumeOne(it, Allowed(t, node).Keys, d))
  {
  }

  /** The node's ledger of the day moves by what its served users were credited; no other node's or day's moves. */
  lemma {:induction false} CreditAllNodeDays(t: Tables, node: int, items: seq<Item>, now: int,
                                             n: int, k: int, d: Direction)
    requires WellFormed(t)
    ensures Count(CreditAll(t, node, Allowed(t, node), items, now).nodeDaily, (n, k), d) ==
            Count(t.nodeDaily, (n, k), d) + When(n == node && k == DayOf(now), Volume(items, Allowed(t, node).Keys, d))
  {
    hide CreditOne, VolumeOne, Allowed;
    if items != [] {
      var rest := items[..|items| - 1];
      CreditAllNodeDays(t, node, rest, now, n, k, d);
      CreditOneNodeDays(t, CreditAll(t, node, Allowed(t, node), rest, now), node, items[|items| - 1], now, n, k, d);
    }
  }

  /** The bytes of the items whose email is in `names`. */
  function Volume(items: seq<Item>, names: set<string>, d: Direction): int {
    if items == [] then 0
    else Volume(items[..|items| - 1], names, d) + VolumeOne(items[|items| - 1], names, d)
  }

  function VolumeOne(it: Item, names: set<string>, d: Direction): int {
    if it.email in names then it.bytes.In(d) else 0
  }

  /** A batch is skipped, whole, exactly for an unknown node or a number equal to the last one applied. */
  predicate Skipped(t: Tables, node: int, seqNo: int) {
    node !in t.nodes || (seqNo != 0 && seqNo == t.nodes[node].trafficSeq)
  }

  /**
   Reports are credited to the users the node serves and to nobody else, to all
   four ledgers alike; a skipped batch changes nothing. Stated for any user `u`,
   node `n` and day or node `k`, so it also says what stays as it was.
   */
  lemma IngestCredits(t: Tables, node: int, seqNo: int, items: seq<Item>, now: int,
                      u: int, n: int, k: int, d: Direction)
    requires WellFormed(t)
    ensures Skipped(t, node, seqNo) <==> node !in t.nodes || (seqNo != 0 && seqNo == t.nodes[node].trafficSeq)
    ensures Skipped(t, node, seqNo) ==> Ingest(t, node, seqNo, items, now) == t
    ensures !Skipped(t, node, seqNo) ==>
              var r := Ingest(t, node, seqNo, items, now);
              && WellFormed(r) && r.userNodes == t.userNodes && r.users.Keys == t.users.Keys
              && r.nextUser == t.nextUser && r.nextNode == t.nextNode && r.devices == t.devices
              && (u in t.users ==>
                    r.users[u] == t.users[u].(dataUsed :=
                      t.users[u].dataUsed + Worth(t, node, items, u, Up) + Worth(t, node, items, u, Down)))
              && Count(r.nodeTraffic, (u, k), d) ==
                 Count(t.nodeTraffic, (u, k), d) + When(k == node, Worth(t, node, items, u, d))
              && Count(r.trafficDaily, (u, k), d) ==
                 Count(t.trafficDaily, (u, k), d) +
                 When(k * 86400 <= now < (k + 1) * 86400, Worth(t, node, items, u, d))
              && Count(r.nodeDaily, (n, k), d) ==
                 Count(t.nodeDaily, (n, k), d) +
                 When(n == node && k * 86400 <= now < (k + 1) * 86400, Volume(items, Allowed(t, node).Keys, d))
              && r.nodes == t.nodes[node :=
                   t.nodes[node].(trafficSeq := if seqNo != 0 then seqNo else t.nodes[node].trafficSeq)]
  {
    CreditAllMoves(t, node, items, now, u);
    CreditAllCells(t, node, items, now, u, k, d);
    CreditAllNodeDays(t, node, items, now, n, k, d);
    DayHolds(now, k);
    hide DayOf, CreditAll, Worth, Volume;
  }

  // ---- refinement of the accounting protocol ----

  /**
   The tables hold what the protocol's books say, for node `node` and the users in
   `who`: the same last number, and for each of these users a per-node ledger of
   `base` plus what its name was credited.
   */
  ghost predicate Reflects(t: Tables, who: set<int>, base: (int, Direction) -> int, node: int, b: P.Books) {
    && node in t.nodes && t.nodes[node].trafficSeq == b.last
    && forall u, d :: u in who && u in t.users ==> CellReflects(t, base, node, b, u, d)
  }

  predicate CellReflects(t: Tables, base: (int, Direction) -> int, node: int, b: P.Books, u: int, d: Direction)
    requires u in t.users
  {
    Count(t.nodeTraffic, (u, node), d) == base(u, d) + Count(b.credited, t.users[u].username, d)
  }

  /**
   One ingest on the tables is one ingest of the protocol, with the usernames the
   node serves as the allowed set: so the protocol's exactly-once theorem is about
   the ledgers.
   */
  lemma IngestRefines(t: Tables, who: set<int>, base: (int, Direction) -> int, node: int, b: P.Books,
                      f: P.Frame, now: int)
    requires WellFormed(t) && Reflects(t, who, base, node, b)
    ensures Reflects(Ingest(t, node, f.seqNo, f.items, now), who, base, node, P.Ingest(b, Allowed(t, node).Keys, f))
  {
    var r := Ingest(t, node, f.seqNo, f.items, now);
    var c := P.Ingest(b, Allowed(t, node).Keys, f);
    IngestCredits(t, node, f.seqNo, f.items, now, 0, 0, 0, Up);
    forall u, d | u in who && u in r.users
      ensures CellReflects(r, base, node, c, u, d)
    {
      assert CellReflects(t, base, node, b, u, d);
      if !Skipped(t, node, f.seqNo) {
        CellRefines(t, base, node, b, f, now, u, d);
      }
    }
  }

  lemma CellRefines(t: Tables, base: (int, Direction) -> int, node: int, b: P.Books, f: P.Frame, now: int,
                    u: int, d: Direction)
    requires WellFormed(t) && !Skipped(t, node, f.seqNo) && t.nodes[node].trafficSeq == b.last
    requires u in t.users && CellReflects(t, base, node, b, u, d)
    ensures u in Ingest(t, node, f.seqNo, f.items, now).users
    ensures CellReflects(Ingest(t, node, f.seqNo, f.items, now), base, node,
                         P.Ingest(b, Allowed(t, node).Keys, f), u, d)
  {
    hide Ingest, Merge, Reported, Volume;
    var name := t.users[u].username;
    IngestCredits(t, node, f.seqNo, f.items, now, u, 0, node, d);
    MergeAdds(b.credited, P.Filter(f.items, Allowed(t, node).Keys, true), name, d);
    P.FilterReports(f.items, Allowed(t, node).Keys, true, name, d);
    NamedInAllowed(t, node, u);
  }

  /** A user's name is in a node's index exactly when the node serves that user. */
  lemma NamedInAllowed(t: Tables, node: int, u: int)
    requires WellFormed(t) && u in t.users
    ensures t.users[u].username in Allowed(t, node) <==> (u, node) in t.userNodes
  {
  }
}
