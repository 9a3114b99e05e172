/**
 The accounting protocol run against the panel's real tables, for one node, with
 every other use of the store going on in between: reports of other nodes, resets,
 edits, assignments, users and nodes that come and go. Every byte lands in its
 user's ledger exactly once.
 */
module Accounting {
  import opened Traffic
  import opened StoreSpec
  import opened Ledgers
  import P = TrafficProtocol
  import I = IngestSpec

  /** `erased(u, d)` is the history of what resets and deletions took out of the user's ledger for the node. */
  datatype System = System(p: P.State, t: Tables, erased: (int, Direction) -> int)

  datatype Event =
    | Protocol(ev: P.Event)                    // anything but a delivery
    | Deliver(ackQueued: bool, now: int)
    | Store(op: Op)                            // the panel's other store operations

  /** The node's own reports come in by delivery only. */
  predicate Beside(op: Op, node: int) {
    !(op.Add? && op.node == node)
  }

  predicate Erases(op: Op, node: int, u: int) {
    ((op.Reset? || op.RemoveUser?) && op.user == u) || (op.RemoveNode? && op.node == node)
  }

  function DoStore(s: System, node: int, op: Op): System {
    if Beside(op, node)
    then System(s.p, Apply(s.t, op),
                (u, d) => s.erased(u, d) + I.When(Erases(op, node, u), Count(s.t.nodeTraffic, (u, node), d)))
    else s
  }

  /** Whose reports are credited: once the node is deleted nobody's, though its batches are still acked. */
  function Names(t: Tables, node: int): set<string>
    requires WellFormed(t)
  {
    if node in t.nodes then I.Allowed(t, node).Keys else {}
  }

  ghost function Next(s: System, node: int, ev: Event): System
    requires WellFormed(s.t)
  {
    match ev
    case Protocol(pe) => if pe.Deliver? then s else s.(p := P.Next(s.p, pe))
    case Deliver(ackQueued, now) =>
      if s.p.up == [] then s
      else s.(p := P.Next(s.p, P.Deliver(Names(s.t, node), ackQueued)),
              t := I.Ingest(s.t, node, s.p.up[0].seqNo, s.p.up[0].items, now))
    case Store(op) => DoStore(s, node, op)
  }

  /** A node of the tables and an agent with a fresh buffer. */
  predicate Initial(base: Tables, node: int) {
    node in base.nodes && base.nodes[node].trafficSeq != 1
  }

  ghost function Run(base: Tables, node: int, evs: seq<Event>): System
    requires WellFormed(base) && Initial(base, node)
    ensures WellFormed(Run(base, node, evs).t)
    decreases |evs|
  {
    if evs == [] then System(P.Start(base.nodes[node].trafficSeq), base, (u, d) => 0)
    else
      var s := Run(base, node, evs[..|evs| - 1]);
      NextWellFormed(s, node, evs[|evs| - 1]);
      Next(s, node, evs[|evs| - 1])
  }

  lemma NextWellFormed(s: System, node: int, ev: Event)
    requires WellFormed(s.t)
    ensures WellFormed(Next(s, node, ev).t)
  {
    if ev.Deliver? && s.p.up != [] {
      I.IngestCredits(s.t, node, s.p.up[0].seqNo, s.p.up[0].items, ev.now, 0, 0, 0, Up);
    }
    if ev.Store? {
      ApplyWellFormed(s.t, ev.op);
    }
  }

  /** The node keeps the panel's last number until it is deleted, and its identifier is never reissued. */
  predicate NodeOk(s: System, node: int) {
    node < s.t.nextNode && (node in s.t.nodes ==> s.t.nodes[node].trafficSeq == s.p.books.last)
  }

  ghost predicate Inv(base: Tables, s: System, node: int)
    requires node in base.nodes
  {
    P.Inv(s.p, base.nodes[node].trafficSeq) && NodeOk(s, node)
  }

  lemma ApplyNode(t: Tables, op: Op, node: int)
    requires WellFormed(t) && node < t.nextNode
    ensures node < Apply(t, op).nextNode
    ensures node in Apply(t, op).nodes ==> node in t.nodes && Apply(t, op).nodes[node] == t.nodes[node]
  {
    hide AddTo, WithoutRow, WithoutColumn, Taken;
  }

  lemma NextKeeps(base: Tables, s: System, node: int, ev: Event)
    requires Initial(base, node) && WellFormed(s.t) && Inv(base, s, node)
    ensures Inv(base, Next(s, node, ev), node)
  {
    hide P.Inv, WellFormed;
    match ev
    case Protocol(pe) =>
      if !pe.Deliver? {
        P.NextKeeps(s.p, base.nodes[node].trafficSeq, pe);
        assert Next(s, node, ev).p.books == s.p.books;
      }
    case Deliver(ackQueued, now) =>
      if s.p.up != [] {
        var f := s.p.up[0];
        P.NextKeeps(s.p, base.nodes[node].trafficSeq, P.Deliver(Names(s.t, node), ackQueued));
        I.IngestCredits(s.t, node, f.seqNo, f.items, now, 0, 0, 0, Up);
      }
    case Store(op) => ApplyNode(s.t, op, node);
  }

  lemma {:induction false} RunKeeps(base: Tables, node: int, evs: seq<Event>)
    requires WellFormed(base) && Initial(base, node)
    ensures Inv(base, Run(base, node, evs), node)
    decreases |evs|
  {
    if evs == [] {
      P.StartInv(base.nodes[node].trafficSeq);
    } else {
      RunKeeps(base, node, evs[..|evs| - 1]);
      NextKeeps(base, Run(base, node, evs[..|evs| - 1]), node, evs[|evs| - 1]);
    }
  }

  // ---- one user's ledger ----

  /** Nobody but `u` bears the name, and `u` bears no other. */
  ghost predicate Sole(t: Tables, u: int, name: string) {
    forall v :: v in t.users ==> (t.users[v].username == name <==> v == u)
  }

  /** The user's ledger for the node has gained, or had erased, exactly what its name was credited. */
  predicate CellOk(base: Tables, s: System, node: int, u: int, name: string, d: Direction) {
    Count(s.t.nodeTraffic, (u, node), d) + s.erased(u, d) ==
    Count(base.nodeTraffic, (u, node), d) + Count(s.p.books.credited, name, d)
  }

  lemma ApplyCell(t: Tables, op: Op, node: int, u: int, d: Direction)
    requires Beside(op, node)
    ensures Count(Apply(t, op).nodeTraffic, (u, node), d) ==
            Count(t.nodeTraffic, (u, node), d) - I.When(Erases(op, node, u), Count(t.nodeTraffic, (u, node), d))
  {
    hide Taken;
  }

  lemma NameServed(t: Tables, node: int, u: int, name: string)
    requires WellFormed(t) && Sole(t, u, name)
    ensures name in I.Allowed(t, node) <==> u in t.users && (u, node) in t.userNodes
  {
    if u in t.users {
      I.NamedInAllowed(t, node, u);
    }
  }

  /** One delivery moves the ledger and the credits alike, whether the user exists yet, is assigned, or neither. */
  lemma DeliverCell(base: Tables, s: System, node: int, ackQueued: bool, now: int, u: int, name: string, d: Direction)
    requires Initial(base, node) && WellFormed(s.t) && Inv(base, s, node) && s.p.up != []
    requires Sole(s.t, u, name) && CellOk(base, s, node, u, name, d)
    ensures CellOk(base, Next(s, node, Deliver(ackQueued, now)), node, u, name, d)
  {
    hide P.Inv, WellFormed, I.Allowed, Reported, Merge, Count;
    var f, names := s.p.up[0], Names(s.t, node);
    I.IngestCredits(s.t, node, f.seqNo, f.items, now, u, 0, node, d);
    MergeAdds(s.p.books.credited, P.Filter(f.items, names, true), name, d);
    P.FilterReports(f.items, names, true, name, d);
    NameServed(s.t, node, u, name);
  }

  lemma NextCell(base: Tables, s: System, node: int, ev: Event, u: int, name: string, d: Direction)
    requires Initial(base, node) && WellFormed(s.t) && Inv(base, s, node)
    requires Sole(s.t, u, name) && CellOk(base, s, node, u, name, d)
    ensures CellOk(base, Next(s, node, ev), node, u, name, d)
  {
    hide P.Inv, WellFormed, Apply, Count;
    match ev
    case Protocol(pe) =>
      if !pe.Deliver? {
        assert Next(s, node, ev).p.books == s.p.books;
      }
    case Deliver(ackQueued, now) =>
      if s.p.up != [] {
        DeliverCell(base, s, node, ackQueued, now, u, name, d);
      }
    case Store(op) =>
      if Beside(op, node) {
        ApplyCell(s.t, op, node, u, d);
      }
  }

  /** At no point of the run does another user bear the name. */
  ghost predicate SoleBearer(base: Tables, node: int, evs: seq<Event>, u: int, name: string)
    requires WellFormed(base) && Initial(base, node)
  {
    forall i, v :: 0 <= i <= |evs| && v != u && v in Run(base, node, evs[..i]).t.users ==>
      Run(base, node, evs[..i]).t.users[v].username != name
  }

  lemma NextNames(s: System, node: int, ev: Event, u: int)
    requires WellFormed(s.t) && u < s.t.nextUser
    ensures var r := Next(s, node, ev);
            u < r.t.nextUser && (u in r.t.users ==> u in s.t.users && r.t.users[u].username == s.t.users[u].username)
  {
    if ev.Deliver? && s.p.up != [] {
      I.IngestCredits(s.t, node, s.p.up[0].seqNo, s.p.up[0].items, ev.now, u, 0, 0, Up);
    }
    if ev.Store? {
      ApplyNames(s.t, ev.op, u);
    }
  }

  lemma ApplyNames(t: Tables, op: Op, u: int)
    requires WellFormed(t) && u < t.nextUser
    ensures u < Apply(t, op).nextUser
    ensures u in Apply(t, op).users ==> u in t.users && Apply(t, op).users[u].username == t.users[u].username
  {
    hide AddTo, WithoutRow, WithoutColumn, Taken;
  }

  /** A user keeps its name for as long as it exists. */
  lemma {:induction false} NameStays(base: Tables, node: int, evs: seq<Event>, i: nat, u: int)
    requires WellFormed(base) && Initial(base, node) && i <= |evs| && u in Run(base, node, evs[..i]).t.users
    ensures var s, r := Run(base, node, evs[..i]), Run(base, node, evs);
            u < r.t.nextUser && (u in r.t.users ==> r.t.users[u].username == s.t.users[u].username)
    decreases |evs|
  {
    if i == |evs| {
      assert evs[..i] == evs;
    } else {
      hide Next;
      var rest := evs[..|evs| - 1];
      assert rest[..i] == evs[..i];
      NameStays(base, node, rest, i, u);
      NextNames(Run(base, node, rest), node, evs[|evs| - 1], u);
    }
  }

  /** The ledger follows the name's credits through the whole run. */
  lemma {:induction false} CellAlong(base: Tables, node: int, evs: seq<Event>, u: int, name: string, d: Direction)
    requires WellFormed(base) && Initial(base, node)
    requires forall i :: 0 <= i <= |evs| ==> Sole(Run(base, node, evs[..i]).t, u, name)
    ensures CellOk(base, Run(base, node, evs), node, u, name, d)
    decreases |evs|
  {
    if evs != [] {
      hide Next, Inv, Sole, CellOk;
      var rest := evs[..|evs| - 1];
      forall i | 0 <= i <= |rest|
        ensures Sole(Run(base, node, rest[..i]).t, u, name)
      {
        assert rest[..i] == evs[..i];
      }
      CellAlong(base, node, rest, u, name, d);
      RunKeeps(base, node, rest);
      assert rest[..|rest|] == rest;
      NextCell(base, Run(base, node, rest), node, evs[|evs| - 1], u, name, d);
    }
  }

  /**
   In every run, through losses, resends, reconnects and restarts on either side and
   whatever else the panel does to its tables, for every user that exists at its
   end, whenever it was created: what was collected under its name is what its
   ledger for this node gained or had erased, plus what was ignored while the node
   did not serve it, plus what is still in flight unapplied, plus what is pending.
   The only condition is that the name was nobody else's in the run.
   */
  lemma LedgerExactlyOnce(base: Tables, node: int, evs: seq<Event>, u: int, d: Direction)
    requires WellFormed(base) && Initial(base, node) && u in Run(base, node, evs).t.users
    requires SoleBearer(base, node, evs, u, Run(base, node, evs).t.users[u].username)
    ensures var s := Run(base, node, evs);
            var name := s.t.users[u].username;
            Count(s.p.collected, name, d) ==
            (Count(s.t.nodeTraffic, (u, node), d) + s.erased(u, d) - Count(base.nodeTraffic, (u, node), d)) +
            Count(s.p.books.ignored, name, d) +
            P.InFlight(s.p, name, d) + Count(s.p.buffer.pend, name, d)
  {
    var s := Run(base, node, evs);
    var name := s.t.users[u].username;
    forall i | 0 <= i <= |evs|
      ensures Sole(Run(base, node, evs[..i]).t, u, name)
    {
      if u in Run(base, node, evs[..i]).t.users {
        NameStays(base, node, evs, i, u);
      }
    }
    CellAlong(base, node, evs, u, name, d);
    RunKeeps(base, node, evs);
    assert P.ConservedAt(s.p, name, d);
  }

  // ---- users that stay served ----

  /** A user the node serves. */
  predicate Serves(t: Tables, node: int, u: int) {
    node in t.nodes && u in t.users && (u, node) in t.userNodes
  }

  /** From event `i` on, none reassigns or deletes the user or deletes the node. */
  ghost predicate LeavesAssigned(evs: seq<Event>, i: nat, node: int, u: int) {
    forall j :: i <= j < |evs| ==> !Unassigns(evs[j], node, u)
  }

  predicate Unassigns(ev: Event, node: int, u: int) {
    ev.Store? && (((ev.op.Assign? || ev.op.RemoveUser?) && ev.op.user == u) ||
               (ev.op.RemoveNode? && ev.op.node == node))
  }

  lemma ApplyServes(t: Tables, op: Op, node: int, u: int)
    requires WellFormed(t) && Serves(t, node, u) && !Unassigns(Store(op), node, u)
    ensures Serves(Apply(t, op), node, u) && Apply(t, op).users[u].username == t.users[u].username
  {
    hide AddTo, WithoutRow, WithoutColumn, Taken;
  }

  /** Nothing a batch reports for a served user is ignored. */
  lemma IngestIgnoresOthers(t: Tables, node: int, b: P.Books, f: P.Frame, u: int, d: Direction)
    requires WellFormed(t) && Serves(t, node, u)
    ensures Count(P.Ingest(b, Names(t, node), f).ignored, t.users[u].username, d) ==
            Count(b.ignored, t.users[u].username, d)
  {
    var names, name := Names(t, node), t.users[u].username;
    I.NamedInAllowed(t, node, u);
    MergeAdds(b.ignored, P.Filter(f.items, names, false), name, d);
    P.FilterReports(f.items, names, false, name, d);
  }

  lemma NextServes(s: System, node: int, ev: Event, u: int, d: Direction)
    requires WellFormed(s.t) && Serves(s.t, node, u) && !Unassigns(ev, node, u)
    ensures var r, name := Next(s, node, ev), s.t.users[u].username;
            && Serves(r.t, node, u) && r.t.users[u].username == name
            && Count(r.p.books.ignored, name, d) == Count(s.p.books.ignored, name, d)
  {
    hide Apply, Count, I.Ingest, P.Ingest, WellFormed, Names;
    match ev
    case Protocol(pe) =>
      assert Next(s, node, ev).p.books == s.p.books;
    case Deliver(ackQueued, now) =>
      if s.p.up != [] {
        I.IngestCredits(s.t, node, s.p.up[0].seqNo, s.p.up[0].items, now, u, 0, 0, Up);
        IngestIgnoresOthers(s.t, node, s.p.books, s.p.up[0], u, d);
      }
    case Store(op) =>
      if Beside(op, node) {
        ApplyServes(s.t, op, node, u);
      }
  }

  /**
   From any point of a run at which the node serves a user, and as long as it does, none of the
   user's bytes is ignored.
   */
  lemma {:induction false} ServedNeverIgnored(base: Tables, node: int, evs: seq<Event>, i: nat, u: int, d: Direction)
    requires WellFormed(base) && Initial(base, node) && i <= |evs|
    requires Serves(Run(base, node, evs[..i]).t, node, u) && LeavesAssigned(evs, i, node, u)
    ensures var s, r := Run(base, node, evs[..i]), Run(base, node, evs);
            var name := s.t.users[u].username;
            && Serves(r.t, node, u) && r.t.users[u].username == name
            && Count(r.p.books.ignored, name, d) == Count(s.p.books.ignored, name, d)
    decreases |evs|
  {
    if i == |evs| {
      assert evs[..i] == evs;
    } else {
      hide Next, WellFormed;
      var rest := evs[..|evs| - 1];
      assert rest[..i] == evs[..i];
      ServedNeverIgnored(base, node, rest, i, u, d);
      NextServes(Run(base, node, rest), node, evs[|evs| - 1], u, d);
    }
  }

  // ---- every byte arrives ----

  function Lifted(ev: P.Event, now: int): Event {
    if ev.Deliver? then Deliver(ev.ackQueued, now) else Protocol(ev)
  }

  function LiftedAll(evs: seq<P.Event>, now: int): seq<Event> {
    seq(|evs|, i requires 0 <= i < |evs| => Lifted(evs[i], now))
  }

  /** The same users under the same names, with the same assignments. */
  ghost predicate SameUsers(t: Tables, r: Tables, node: int) {
    && r.users.Keys == t.users.Keys && r.userNodes == t.userNodes && (node in r.nodes <==> node in t.nodes)
    && forall u :: u in t.users ==> r.users[u].username == t.users[u].username
  }

  lemma SameNames(t: Tables, r: Tables, node: int)
    requires WellFormed(t) && WellFormed(r) && SameUsers(t, r, node)
    ensures Names(r, node) == Names(t, node)
  {
    forall e
      ensures e in I.Allowed(r, node) <==> e in I.Allowed(t, node)
    {
    }
  }

  lemma IngestSameUsers(t: Tables, node: int, f: P.Frame, now: int)
    requires WellFormed(t)
    ensures SameUsers(t, I.Ingest(t, node, f.seqNo, f.items, now), node)
  {
    hide I.Ingest, WellFormed;
    I.IngestCredits(t, node, f.seqNo, f.items, now, 0, 0, 0, Up);
    forall u | u in t.users
      ensures I.Ingest(t, node, f.seqNo, f.items, now).users[u].username == t.users[u].username
    {
      I.IngestCredits(t, node, f.seqNo, f.items, now, u, 0, 0, Up);
    }
  }

  /** A step of the protocol is a step of the whole system that leaves the users as they are. */
  lemma LiftedStep(s: System, node: int, ev: P.Event, now: int)
    requires WellFormed(s.t) && (ev.Deliver? ==> ev.allowed == Names(s.t, node))
    ensures var r := Next(s, node, Lifted(ev, now));
            r.p == P.Next(s.p, ev) && SameUsers(s.t, r.t, node)
  {
    hide I.Ingest, WellFormed, Names;
    if ev.Deliver? && s.p.up != [] {
      IngestSameUsers(s.t, node, s.p.up[0], now);
    }
  }

  lemma {:induction false} LiftedRun(base: Tables, node: int, evs: seq<Event>, more: seq<P.Event>, now: int)
    requires WellFormed(base) && Initial(base, node)
    requires forall ev :: ev in more && ev.Deliver? ==> ev.allowed == Names(Run(base, node, evs).t, node)
    ensures var s, r := Run(base, node, evs), Run(base, node, evs + LiftedAll(more, now));
            r.p == P.Run(s.p, more) && SameUsers(s.t, r.t, node)
    decreases |more|
  {
    if more == [] {
      assert evs + LiftedAll(more, now) == evs;
    } else {
      hide Run, Next, SameUsers, WellFormed, Names, P.Next;
      var rest, last := more[..|more| - 1], more[|more| - 1];
      var done := evs + LiftedAll(rest, now);
      LiftedRun(base, node, evs, rest, now);
      SameNames(Run(base, node, evs).t, Run(base, node, done).t, node);
      LiftedStep(Run(base, node, done), node, last, now);
      assert evs + LiftedAll(more, now) == done + [Lifted(last, now)];
      RunLast(base, node, done, Lifted(last, now));
      SameTwice(Run(base, node, evs).t, Run(base, node, done).t, Run(base, node, done + [Lifted(last, now)]).t, node);
    }
  }

  lemma RunLast(base: Tables, node: int, evs: seq<Event>, ev: Event)
    requires WellFormed(base) && Initial(base, node)
    ensures WellFormed(Run(base, node, evs).t)
    ensures Run(base, node, evs + [ev]) == Next(Run(base, node, evs), node, ev)
  {
    hide Next, WellFormed;
    assert (evs + [ev])[..|evs|] == evs;
  }

  lemma SameTwice(a: Tables, b: Tables, c: Tables, node: int)
    requires SameUsers(a, b, node) && SameUsers(b, c, node)
    ensures SameUsers(a, c, node)
  {
  }

  lemma SoleBearerLater(base: Tables, node: int, evs: seq<Event>, more: seq<P.Event>, now: int, u: int, name: string)
    requires WellFormed(base) && Initial(base, node) && SoleBearer(base, node, evs, u, name)
    requires forall ev :: ev in more && ev.Deliver? ==> ev.allowed == Names(Run(base, node, evs).t, node)
    ensures SoleBearer(base, node, evs + LiftedAll(more, now), u, name)
  {
    hide Run, WellFormed, Names;
    var all := evs + LiftedAll(more, now);
    forall i, v | 0 <= i <= |all| && v != u && v in Run(base, node, all[..i]).t.users
      ensures Run(base, node, all[..i]).t.users[v].username != name
    {
      if i <= |evs| {
        assert all[..i] == evs[..i];
      } else {
        assert all[..i] == evs + LiftedAll(more[..i - |evs|], now);
        NameLater(base, node, evs, more[..i - |evs|], now, u, name, v);
      }
    }
  }

  lemma NameLater(base: Tables, node: int, evs: seq<Event>, more: seq<P.Event>, now: int, u: int, name: string, v: int)
    requires WellFormed(base) && Initial(base, node) && SoleBearer(base, node, evs, u, name) && v != u
    requires forall ev :: ev in more && ev.Deliver? ==> ev.allowed == Names(Run(base, node, evs).t, node)
    requires v in Run(base, node, evs + LiftedAll(more, now)).t.users
    ensures Run(base, node, evs + LiftedAll(more, now)).t.users[v].username != name
  {
    hide Run, WellFormed, Names;
    LiftedRun(base, node, evs, more, now);
    assert evs[..|evs|] == evs;
    assert v in Run(base, node, evs[..|evs|]).t.users;
    assert Run(base, node, evs[..|evs|]).t.users[v].username != name;
  }

  /**
   Every byte arrives. Whatever has happened so far, at most two round trips later
   nothing collected under a user's name is left on the way: all of it is in the
   user's ledger, was erased from it, or was ignored; and if the node serves the user
   now, none of what was still on its way is ignored.
   */
  lemma EveryByteArrives(base: Tables, node: int, evs: seq<Event>, u: int, now: int, d: Direction)
    returns (more: seq<Event>)
    requires WellFormed(base) && Initial(base, node) && u in Run(base, node, evs).t.users
    requires SoleBearer(base, node, evs, u, Run(base, node, evs).t.users[u].username)
    ensures |more| <= 8 && forall ev :: ev in more ==> !ev.Store?
    ensures var s, r := Run(base, node, evs), Run(base, node, evs + more);
            var name := s.t.users[u].username;
            && Count(s.p.collected, name, d) ==
               Count(r.t.nodeTraffic, (u, node), d) + r.erased(u, d) - Count(base.nodeTraffic, (u, node), d) +
               Count(r.p.books.ignored, name, d)
            && (Serves(s.t, node, u) ==> Count(r.p.books.ignored, name, d) == Count(s.p.books.ignored, name, d))
  {
    hide Run, WellFormed, P.Inv, P.Run;
    var s := Run(base, node, evs);
    RunKeeps(base, node, evs);
    P.ConsistentHolds(s.p, base.nodes[node].trafficSeq);
    var steps := P.CanSettle(s.p, Names(s.t, node));
    more := LiftedAll(steps, now);
    LiftedRun(base, node, evs, steps, now);
    SoleBearerLater(base, node, evs, steps, now, u, s.t.users[u].username);
    LedgerExactlyOnce(base, node, evs + more, u, d);
    if Serves(s.t, node, u) {
      assert (evs + more)[..|evs|] == evs;
      ServedNeverIgnored(base, node, evs + more, |evs|, u, d);
    }
  }

  /** What a reset takes out of a ledger is exactly what it held. */
  lemma ResetErases(s: System, node: int, u: int, d: Direction)
    requires WellFormed(s.t)
    ensures var r := Next(s, node, Store(Reset(u)));
            && Count(r.t.nodeTraffic, (u, node), d) == 0 && r.p == s.p
            && r.erased(u, d) == s.erased(u, d) + Count(s.t.nodeTraffic, (u, node), d)
  {
  }

  /** A node serves a user from its assignment on. */
  lemma AssignedIsServed(s: System, node: int, u: int, nodes: set<int>)
    requires WellFormed(s.t)
    ensures Serves(Next(s, node, Store(Assign(u, nodes))).t, node, u) <==>
            node in nodes && u in s.t.users && node in s.t.nodes
  {
  }

  // ---- a deleted node ----

  lemma NextGone(s: System, node: int, ev: Event, e: string, d: Direction)
    requires WellFormed(s.t) && node !in s.t.nodes && node < s.t.nextNode
    ensures var r := Next(s, node, ev);
            && node !in r.t.nodes && node < r.t.nextNode && (ev.Deliver? ==> r.t == s.t)
            && Count(r.p.books.credited, e, d) == Count(s.p.books.credited, e, d)
  {
    hide Apply, Count, WellFormed;
    match ev
    case Protocol(pe) =>
      assert Next(s, node, ev).p.books == s.p.books;
    case Deliver(ackQueued, now) =>
      if s.p.up != [] {
        MergeAdds(s.p.books.credited, P.Filter(s.p.up[0].items, {}, true), e, d);
        P.FilterReports(s.p.up[0].items, {}, true, e, d);
      }
    case Store(op) => ApplyNode(s.t, op, node);
  }

  /**
   What is lost when a node is deleted while its agent still reports: everything
   delivered from then on is acked and ignored, and nothing more is ever credited.
   */
  lemma {:induction false} DeletedNodeIgnored(base: Tables, node: int, evs: seq<Event>, i: nat, e: string, d: Direction)
    requires WellFormed(base) && Initial(base, node) && i <= |evs| && node !in Run(base, node, evs[..i]).t.nodes
    ensures var s, r := Run(base, node, evs[..i]), Run(base, node, evs);
            && node !in r.t.nodes && node < r.t.nextNode
            && Count(r.p.books.credited, e, d) == Count(s.p.books.credited, e, d)
            && Count(r.p.collected, e, d) ==
               Count(s.p.books.credited, e, d) + Count(r.p.books.ignored, e, d) +
               P.InFlight(r.p, e, d) + Count(r.p.buffer.pend, e, d)
    decreases |evs|
  {
    RunKeeps(base, node, evs);
    assert P.ConservedAt(Run(base, node, evs).p, e, d);
    if i == |evs| {
      assert evs[..i] == evs;
    } else {
      hide Next, WellFormed, P.Inv;
      var rest := evs[..|evs| - 1];
      assert rest[..i] == evs[..i];
      DeletedNodeIgnored(base, node, rest, i, e, d);
      NextGone(Run(base, node, rest), node, evs[|evs| - 1], e, d);
    }
  }
}
