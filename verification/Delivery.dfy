/**
 The panel and one node's agent, joined by the node's connection
 (internal/panel/hub.go, internal/agent/agent.go): messages are written in the order
 they were queued, the agent reads them in that order and applies each configuration
 before it reads on. So what the panel last queued is what Xray comes to serve.
 */
module Delivery {
  import opened Wrappers
  import opened Provisioning
  import SS = StoreSpec
  import SG = Signature
  import I = IngestSpec
  import PC = PushCache
  import AP = ApplyProtocol

  /**
   `taken` counts the messages the agent has read from its current connection, and
   `got` is the last configuration among them.
   */
  datatype System = System(panel: PC.Panel, agent: AP.State, linked: bool, taken: nat, got: Option<PC.Msg>)

  datatype Event =
    | Panel(change: PC.Event)   // anything but a registration of this node
    | Register                  // the agent connects
    | Take                      // the agent reads its next message
    | Agent(step: AP.Event)     // anything but the start of an apply

  /** The messages of a connection that have left the write queue. */
  function Sent(c: PC.Conn): int {
    |c.queued| - c.unsent
  }

  ghost function DoPanel(s: System, node: int, ev: PC.Event): System {
    if ev == PC.Connect(node) then s
    else s.(panel := PC.Next(s.panel, ev), linked := s.linked && node in PC.Next(s.panel, ev).conns)
  }

  /** An agent that is running and not applying anything connects; what its old connection still held is lost. */
  ghost function DoRegister(s: System, node: int): System {
    if s.agent.phase.Idle? && node in s.panel.db.nodes
    then System(PC.Next(s.panel, PC.Connect(node)), s.agent, true, 0, None) else s
  }

  predicate CanTake(s: System, node: int) {
    s.linked && s.agent.phase.Idle? && node in s.panel.conns &&
    s.taken < |s.panel.conns[node].queued| && s.taken < Sent(s.panel.conns[node])
  }

  function DoTake(s: System, node: int, certMissing: bool): System {
    if !CanTake(s, node) then s
    else
      var m := s.panel.conns[node].queued[s.taken];
      match m
      case ConfigMsg(_, _) =>
        s.(agent := AP.DoBegin(s.agent, PC.Written(m, certMissing)), taken := s.taken + 1, got := Some(m))
      case AckMsg(_) => s.(taken := s.taken + 1)
  }

  /** An agent that dies takes its connection with it. */
  function DoAgent(s: System, ev: AP.Event): System {
    if ev.Begin? then s
    else if AP.Next(s.agent, ev).phase.Down? then s.(agent := AP.Next(s.agent, ev), linked := false, got := None)
    else s.(agent := AP.Next(s.agent, ev))
  }

  ghost function Next(s: System, node: int, certMissing: bool, ev: Event): System {
    match ev
    case Panel(pe) => DoPanel(s, node, pe)
    case Register => DoRegister(s, node)
    case Take => DoTake(s, node, certMissing)
    case Agent(ae) => DoAgent(s, ae)
  }

  ghost function Run(s: System, node: int, certMissing: bool, evs: seq<Event>): System {
    if evs == [] then s else Next(Run(s, node, certMissing, evs[..|evs| - 1]), node, certMissing, evs[|evs| - 1])
  }

  function Start(file: AP.File, xray: AP.Xray): System {
    System(PC.START, AP.Start(file, xray), false, 0, None)
  }

  /** The agent's own conditions: restarts succeed, and no apply returns to a recorded document it does not trust. */
  ghost predicate Legal(s: System, node: int, certMissing: bool, ev: Event) {
    && (ev.Agent? ==> AP.Legal(s.agent, ev.step))
    && (ev.Take? && CanTake(s, node) && s.panel.conns[node].queued[s.taken].ConfigMsg? ==>
          AP.Guarded(s.agent, PC.Written(s.panel.conns[node].queued[s.taken], certMissing)))
  }

  ghost predicate LegalRun(s: System, node: int, certMissing: bool, evs: seq<Event>) {
    forall i :: 0 <= i < |evs| ==> Legal(Run(s, node, certMissing, evs[..i]), node, certMissing, evs[i])
  }

  // ---- the invariant ----

  /** The agent has read a prefix of what was queued on its connection, in order. */
  ghost predicate LinkOk(s: System, node: int) {
    s.linked ==>
      && node in s.panel.conns && s.taken <= |s.panel.conns[node].queued| && s.taken <= Sent(s.panel.conns[node])
      && s.got == PC.LastConfig(s.panel.conns[node].queued[..s.taken])
  }

  /** The last configuration read is the file, and applied once the agent is idle. */
  ghost predicate GotOk(s: System, certMissing: bool) {
    s.got.Some? ==>
      && s.got.value.ConfigMsg? && s.agent.file == AP.Doc(PC.Written(s.got.value, certMissing))
      && !s.agent.phase.Down? && (s.agent.phase.Idle? ==> s.agent.mem.Known?)
  }

  ghost predicate Inv(s: System, node: int, certMissing: bool) {
    PC.Inv(s.panel) && AP.Inv(s.agent) && LinkOk(s, node) && GotOk(s, certMissing)
  }

  /** What a connection's queue may become as long as it is the same connection. */
  ghost predicate Grows(a: PC.Conn, b: PC.Conn) {
    a.queued <= b.queued && Sent(a) <= Sent(b)
  }

  lemma GrowsOn(a: PC.Conn, b: PC.Conn, c: PC.Conn)
    requires Grows(a, b) && Grows(b, c)
    ensures Grows(a, c)
  {
  }

  lemma SyncGrows(p: PC.Panel, m: int, node: int)
    requires node in p.conns
    ensures node in PC.SyncNode(p, m).conns && Grows(p.conns[node], PC.SyncNode(p, m).conns[node])
  {
    hide SG.PreHash, PC.ActiveFor, PC.FreshConfig;
  }

  lemma ForceGrows(p: PC.Panel, m: int, node: int)
    requires node in p.conns
    ensures var f := PC.ForceSync(p, m);
            && node in f.conns && Grows(p.conns[node], f.conns[node])
            && node in PC.MarkSynced(f, m).conns && Grows(p.conns[node], PC.MarkSynced(f, m).conns[node])
  {
    hide SG.PreHash, PC.ActiveFor, PC.FreshConfig;
  }

  lemma {:induction false} SyncAllGrows(p: PC.Panel, ids: seq<int>, node: int)
    requires node in p.conns
    ensures node in PC.SyncAll(p, ids).conns && Grows(p.conns[node], PC.SyncAll(p, ids).conns[node])
  {
    if ids != [] {
      hide PC.SyncNode;
      var rest, last := ids[..|ids| - 1], ids[|ids| - 1];
      SyncAllGrows(p, rest, node);
      SyncGrows(PC.SyncAll(p, rest), last, node);
      GrowsOn(p.conns[node], PC.SyncAll(p, rest).conns[node], PC.SyncAll(p, ids).conns[node]);
    }
  }

  /** Whatever the panel does, short of registering the node anew, the node's queue only grows. */
  lemma PanelGrows(p: PC.Panel, ev: PC.Event, node: int)
    requires ev != PC.Connect(node) && node in PC.Next(p, ev).conns
    ensures node in p.conns && Grows(p.conns[node], PC.Next(p, ev).conns[node])
  {
    hide PC.SyncNode, PC.ForceSync, PC.SyncAll, PC.MarkSynced;
    if ev.Sync? || ev.EnforcementTick? || ev.ConnectSync? || ev.PushSettings? || ev.Report? {
      KeysSame(p, ev);
    }
    match ev
    case Sync(m) => SyncGrows(p, m, node);
    case EnforcementTick(order) => SyncAllGrows(p, order, node);
    case ConnectSync(m) => ForceGrows(p, m, node);
    case PushSettings(m) => ForceGrows(p, m, node);
    case Report(m, seqNo, items) =>
      if SS.WellFormed(p.db) && !I.Skipped(p.db, m, seqNo) {
        SyncGrows(p.(db := I.Ingest(p.db, m, seqNo, items, p.now)), m, node);
      }
    case _ =>
  }

  lemma {:induction false} SyncAllKeys(p: PC.Panel, ids: seq<int>)
    ensures PC.SyncAll(p, ids).conns.Keys == p.conns.Keys
  {
    if ids != [] {
      SyncAllKeys(p, ids[..|ids| - 1]);
    }
  }

  lemma KeysSame(p: PC.Panel, ev: PC.Event)
    requires ev.Sync? || ev.EnforcementTick? || ev.ConnectSync? || ev.PushSettings? || ev.Report?
    ensures PC.Next(p, ev).conns.Keys == p.conns.Keys
  {
    hide SG.PreHash, PC.ActiveFor, PC.FreshConfig;
    if ev.EnforcementTick? {
      SyncAllKeys(p, ev.order);
    }
  }

  lemma PanelKeeps(s: System, node: int, certMissing: bool, ev: PC.Event)
    requires Inv(s, node, certMissing)
    ensures Inv(DoPanel(s, node, ev), node, certMissing)
  {
    hide PC.Inv, PC.Next, AP.Inv;
    PC.NextKeeps(s.panel, ev);
    var r := DoPanel(s, node, ev);
    if ev != PC.Connect(node) && r.linked {
      PanelGrows(s.panel, ev, node);
      assert r.panel.conns[node].queued[..s.taken] == s.panel.conns[node].queued[..s.taken];
    }
  }

  lemma RegisterKeeps(s: System, node: int, certMissing: bool)
    requires Inv(s, node, certMissing)
    ensures Inv(DoRegister(s, node), node, certMissing)
  {
    hide PC.Inv, AP.Inv;
    PC.NextKeeps(s.panel, PC.Connect(node));
  }

  lemma TakeKeeps(s: System, node: int, certMissing: bool)
    requires Inv(s, node, certMissing) && Legal(s, node, certMissing, Take)
    ensures Inv(DoTake(s, node, certMissing), node, certMissing)
  {
    hide PC.Inv, AP.Inv, PC.Written;
    if CanTake(s, node) {
      var queued := s.panel.conns[node].queued;
      var m := queued[s.taken];
      assert queued[..s.taken + 1] == queued[..s.taken] + [m];
      PC.LastConfigAppend(queued[..s.taken], m);
      if m.ConfigMsg? {
        AP.NextKeeps(s.agent, AP.Begin(PC.Written(m, certMissing)));
      }
    }
  }

  lemma AgentKeeps(s: System, node: int, certMissing: bool, ev: AP.Event)
    requires Inv(s, node, certMissing) && AP.Legal(s.agent, ev)
    ensures Inv(DoAgent(s, ev), node, certMissing)
  {
    hide PC.Inv, PC.Written, PC.LastConfig;
    if !ev.Begin? {
      AP.NextKeeps(s.agent, ev);
      if s.got.Some? && !AP.Next(s.agent, ev).phase.Down? {
        AgentSteps(s.agent, ev);
      }
    }
  }

  /** A running agent that starts no apply leaves the file alone, and is idle with a baseline once one is applied. */
  lemma AgentSteps(a: AP.State, ev: AP.Event)
    requires AP.Inv(a) && AP.Legal(a, ev) && !ev.Begin? && !a.phase.Down? && !AP.Next(a, ev).phase.Down?
    ensures AP.Next(a, ev).file == a.file
    ensures AP.Next(a, ev).phase.Idle? ==> AP.Next(a, ev).mem.Known? || (a.phase.Idle? && a.mem.Unknown?)
  {
    hide AP.PairOk, AP.Load;
  }

  lemma NextKeeps(s: System, node: int, certMissing: bool, ev: Event)
    requires Inv(s, node, certMissing) && Legal(s, node, certMissing, ev)
    ensures Inv(Next(s, node, certMissing, ev), node, certMissing)
  {
    hide Inv;
    match ev
    case Panel(pe) => PanelKeeps(s, node, certMissing, pe);
    case Register => RegisterKeeps(s, node, certMissing);
    case Take => TakeKeeps(s, node, certMissing);
    case Agent(ae) => AgentKeeps(s, node, certMissing, ae);
  }

  lemma {:induction false} InvHolds(file: AP.File, xray: AP.Xray, node: int, certMissing: bool, evs: seq<Event>)
    requires LegalRun(Start(file, xray), node, certMissing, evs)
    ensures Inv(Run(Start(file, xray), node, certMissing, evs), node, certMissing)
  {
    if evs == [] {
      PC.InvHolds([]);
    } else {
      hide Next, Legal, Inv;
      var rest := evs[..|evs| - 1];
      forall i | 0 <= i < |rest|
        ensures Legal(Run(Start(file, xray), node, certMissing, rest[..i]), node, certMissing, rest[i])
      {
        assert rest[..i] == evs[..i];
      }
      InvHolds(file, xray, node, certMissing, rest);
      NextKeeps(Run(Start(file, xray), node, certMissing, rest), node, certMissing, evs[|evs| - 1]);
    }
  }

  // ---- the theorems ----

  /** The agent has read everything queued on its connection, a configuration among it, and is applying nothing. */
  ghost predicate CaughtUp(s: System, node: int) {
    && s.linked && node in s.panel.conns && s.taken == |s.panel.conns[node].queued|
    && PC.LastConfig(s.panel.conns[node].queued).Some? && s.agent.phase.Idle?
  }

  lemma CaughtUpServes(s: System, node: int, certMissing: bool)
    requires Inv(s, node, certMissing) && CaughtUp(s, node)
    ensures var m := PC.LastConfig(s.panel.conns[node].queued).value;
            && m.ConfigMsg? && s.agent.mem.Known? && s.agent.mem.doc == PC.Written(m, certMissing)
            && s.agent.xray == AP.Load(AP.Doc(PC.Written(m, certMissing)))
    ensures PC.UpToDate(s.panel, node) ==> ServesAssigned(s.agent.xray, s.panel.db, node, s.panel.now, certMissing)
  {
    hide PC.LastConfig, PC.UpToDate, PC.Written, AP.Load, ServesAssigned;
    var queued := s.panel.conns[node].queued;
    assert queued[..s.taken] == queued;
    if PC.UpToDate(s.panel, node) {
      PC.UpToDateServes(s.panel, node, certMissing);
    }
  }

  /**
   The agent catches up with the panel. In every legal run of the two together, with
   reconnects, full queues, crashes, restarts of either side and live edits: whenever
   the agent has read everything queued on its connection and is applying nothing, it
   holds exactly the configuration last queued, and Xray runs it.
   */
  lemma LastQueuedIsRunning(file: AP.File, xray: AP.Xray, node: int, certMissing: bool, evs: seq<Event>)
    requires LegalRun(Start(file, xray), node, certMissing, evs)
    requires CaughtUp(Run(Start(file, xray), node, certMissing, evs), node)
    ensures var s := Run(Start(file, xray), node, certMissing, evs);
            var m := PC.LastConfig(s.panel.conns[node].queued).value;
            && m.ConfigMsg? && s.agent.mem.Known? && s.agent.mem.doc == PC.Written(m, certMissing)
            && s.agent.xray == AP.Load(AP.Doc(PC.Written(m, certMissing)))
  {
    InvHolds(file, xray, node, certMissing, evs);
    CaughtUpServes(Run(Start(file, xray), node, certMissing, evs), node, certMissing);
  }

  /** What may happen between a tick and the moment the agent has caught up with it. */
  predicate CatchesUp(ev: Event) {
    ev.Take? || ev.Agent? || (ev.Panel? && ev.change.Drain?)
  }

  /** Reading, applying and draining change nothing the tick was about. */
  lemma CatchingUpKeeps(s: System, node: int, certMissing: bool, ev: Event)
    requires CatchesUp(ev) && PC.UpToDate(s.panel, node)
    ensures var r := Next(s, node, certMissing, ev);
            r.panel.db == s.panel.db && r.panel.now == s.panel.now && PC.UpToDate(r.panel, node)
  {
    hide PC.LastConfig, SG.ActiveClients, UsersFor;
    if ev.Panel? {
      var r := PC.Next(s.panel, ev.change);
      assert PC.FreshConfig(r, node) == PC.FreshConfig(s.panel, node);
    }
  }

  lemma {:induction false} StaysUpToDate(s: System, node: int, certMissing: bool, evs: seq<Event>)
    requires PC.UpToDate(s.panel, node) && forall i :: 0 <= i < |evs| ==> CatchesUp(evs[i])
    ensures var r := Run(s, node, certMissing, evs);
            r.panel.db == s.panel.db && r.panel.now == s.panel.now && PC.UpToDate(r.panel, node)
  {
    if evs != [] {
      hide Next, PC.UpToDate;
      StaysUpToDate(s, node, certMissing, evs[..|evs| - 1]);
      CatchingUpKeeps(Run(s, node, certMissing, evs[..|evs| - 1]), node, certMissing, evs[|evs| - 1]);
    }
  }

  lemma {:induction false} RunSplits(s: System, node: int, certMissing: bool, a: seq<Event>, b: seq<Event>)
    ensures Run(s, node, certMissing, a + b) == Run(Run(s, node, certMissing, a), node, certMissing, b)
  {
    if b == [] {
      assert a + b == a;
    } else {
      RunSplits(s, node, certMissing, a, b[..|b| - 1]);
      assert (a + b)[..|a + b| - 1] == a + b[..|b| - 1];
    }
  }

  lemma NextPanelInv(s: System, node: int, certMissing: bool, ev: Event)
    requires PC.Inv(s.panel)
    ensures PC.Inv(Next(s, node, certMissing, ev).panel)
  {
    hide PC.Inv, PC.Next, AP.Next, PC.Written;
    if ev.Panel? {
      PC.NextKeeps(s.panel, ev.change);
    }
    PC.NextKeeps(s.panel, PC.Connect(node));
  }

  lemma {:induction false} PanelInv(file: AP.File, xray: AP.Xray, node: int, certMissing: bool, evs: seq<Event>)
    ensures PC.Inv(Run(Start(file, xray), node, certMissing, evs).panel)
  {
    hide PC.Inv, Next;
    if evs == [] {
      PC.InvHolds([]);
    } else {
      PanelInv(file, xray, node, certMissing, evs[..|evs| - 1]);
      NextPanelInv(Run(Start(file, xray), node, certMissing, evs[..|evs| - 1]), node, certMissing, evs[|evs| - 1]);
    }
  }

  /**
   From end to end. After an enforcement tick at which the node was online with queue
   room, and once its agent has read and applied what was queued, by live edits or
   restarts, Xray serves on every VLESS inbound present exactly the users that the
   tables assigned to the node and that were active at that tick.
   */
  lemma TickReachesXray(file: AP.File, xray: AP.Xray, node: int, certMissing: bool,
                        before: seq<Event>, order: seq<int>, after: seq<Event>)
    requires var p := Run(Start(file, xray), node, certMissing, before).panel;
             PC.Settled(p, node) && p.conns[node].unsent < PC.CAPACITY && PC.Orders(order, p.conns.Keys)
    requires forall i :: 0 <= i < |after| ==> CatchesUp(after[i])
    requires LegalRun(Start(file, xray), node, certMissing, before + [Panel(PC.EnforcementTick(order))] + after)
    requires CaughtUp(Run(Start(file, xray), node, certMissing, before + [Panel(PC.EnforcementTick(order))] + after),
                      node)
    ensures var p := Run(Start(file, xray), node, certMissing, before).panel;
            var s := Run(Start(file, xray), node, certMissing, before + [Panel(PC.EnforcementTick(order))] + after);
            node in p.db.nodes && ServesAssigned(s.agent.xray, p.db, node, p.now, certMissing)
  {
    hide Run, LegalRun, CaughtUp, ServesAssigned, PC.Inv, PC.UpToDate, PC.SyncAll, PC.Orders;
    var s0, tick := Start(file, xray), Panel(PC.EnforcementTick(order));
    var b := Run(s0, node, certMissing, before);
    PanelInv(file, xray, node, certMissing, before);
    PC.TickUpToDate(b.panel, node, order);
    OneStep(s0, node, certMissing, before, tick);
    RunSplits(s0, node, certMissing, before + [tick], after);
    StaysUpToDate(Next(b, node, certMissing, tick), node, certMissing, after);
    InvHolds(file, xray, node, certMissing, before + [tick] + after);
    CaughtUpServes(Run(s0, node, certMissing, before + [tick] + after), node, certMissing);
  }

  lemma OneStep(s: System, node: int, certMissing: bool, evs: seq<Event>, ev: Event)
    ensures Run(s, node, certMissing, evs + [ev]) == Next(Run(s, node, certMissing, evs), node, certMissing, ev)
  {
    assert (evs + [ev])[..|evs|] == evs;
  }

  // ---- every agent can catch up ----

  /** An agent connects, is sent its configuration, reads it and applies it by a restart. */
  function Reconnection(node: int): seq<Event> {
    [Register, Panel(PC.ConnectSync(node)), Panel(PC.Drain(node)), Take,
     Agent(AP.TryLive), Agent(AP.GrpcFails), Agent(AP.DockerRestart), Agent(AP.Record)]
  }

  lemma Connects(s: System, node: int, certMissing: bool)
    requires s.agent.phase.Idle? && node in s.panel.db.nodes
    ensures var m := PC.FreshConfig(s.panel, node);
            var r := Next(Next(Next(s, node, certMissing, Register), node, certMissing, Panel(PC.ConnectSync(node))),
                          node, certMissing, Panel(PC.Drain(node)));
            && r.linked && r.taken == 0 && r.agent == s.agent && r.panel.db == s.panel.db && r.panel.now == s.panel.now
            && node in r.panel.conns && r.panel.conns[node] == PC.Conn([m], 0, true)
  {
    hide PC.ActiveFor, SG.PreHash;
    PC.ConnectSends(s.panel, node);
  }

  lemma Applies(s: System, node: int, certMissing: bool, m: PC.Msg)
    requires s.agent.phase.Idle? && s.linked && s.taken == 0 && m.ConfigMsg?
    requires node in s.panel.conns && s.panel.conns[node] == PC.Conn([m], 0, true)
    ensures var d := PC.Written(m, certMissing);
            var taken := Next(Next(s, node, certMissing, Take), node, certMissing, Agent(AP.TryLive));
            var given := Next(taken, node, certMissing, Agent(AP.GrpcFails));
            var r := Next(Next(given, node, certMissing, Agent(AP.DockerRestart)), node, certMissing, Agent(AP.Record));
            && r.panel == s.panel && r.linked && r.taken == 1
            && r.agent.phase.Idle? && r.agent.xray == AP.Load(AP.Doc(d))
  {
    hide PC.Written, AP.Load;
    AP.RestartReaches(s.agent, PC.Written(m, certMissing));
  }

  /**
   Nothing keeps an agent behind for good: from any state with the agent idle and the
   node known, one reconnection leaves it caught up, with Xray serving exactly the
   users the tables assign to the node and that are active now.
   */
  lemma CanCatchUp(s: System, node: int, certMissing: bool)
    requires s.agent.phase.Idle? && node in s.panel.db.nodes && ValidUsers(s.panel.db.users)
    ensures var r := Run(s, node, certMissing, Reconnection(node));
            && CaughtUp(r, node) && r.panel.db == s.panel.db && r.panel.now == s.panel.now
            && ServesAssigned(r.agent.xray, s.panel.db, node, s.panel.now, certMissing)
  {
    hide Next, PC.ActiveFor, PC.Written, AP.Load, ServesAssigned;
    var c := [Register, Panel(PC.ConnectSync(node)), Panel(PC.Drain(node))];
    var a := [Take, Agent(AP.TryLive), Agent(AP.GrpcFails), Agent(AP.DockerRestart), Agent(AP.Record)];
    Connects(s, node, certMissing);
    Run3(s, node, certMissing, c[0], c[1], c[2]);
    var t := Run(s, node, certMissing, c);
    Applies(t, node, certMissing, PC.FreshConfig(s.panel, node));
    Run5(t, node, certMissing, a);
    RunSplits(s, node, certMissing, c, a);
    assert Reconnection(node) == c + a;
    FreshServes(s.panel, node, certMissing);
  }

  lemma FreshServes(p: PC.Panel, node: int, certMissing: bool)
    requires node in p.db.nodes && ValidUsers(p.db.users)
    ensures PC.FreshConfig(p, node).ConfigMsg?
    ensures var x := AP.Load(AP.Doc(PC.Written(PC.FreshConfig(p, node), certMissing)));
            ServesAssigned(x, p.db, node, p.now, certMissing)
  {
    hide ServesAssigned, AP.Load;
    LoadServesAssigned(p.db, node, p.now, certMissing);
  }

  lemma Run3(s: System, node: int, certMissing: bool, x: Event, y: Event, z: Event)
    ensures Run(s, node, certMissing, [x, y, z]) ==
            Next(Next(Next(s, node, certMissing, x), node, certMissing, y), node, certMissing, z)
  {
    hide Next;
    OneStep(s, node, certMissing, [], x);
    OneStep(s, node, certMissing, [x], y);
    OneStep(s, node, certMissing, [x, y], z);
    assert [] + [x] == [x] && [x] + [y] == [x, y] && [x, y] + [z] == [x, y, z];
  }

  lemma Run5(s: System, node: int, certMissing: bool, evs: seq<Event>)
    requires |evs| == 5
    ensures Run(s, node, certMissing, evs) ==
            var r := Next(Next(s, node, certMissing, evs[0]), node, certMissing, evs[1]);
            var t := Next(Next(r, node, certMissing, evs[2]), node, certMissing, evs[3]);
            Next(t, node, certMissing, evs[4])
  {
    hide Next;
    Run3(s, node, certMissing, evs[0], evs[1], evs[2]);
    OneStep(s, node, certMissing, evs[..3], evs[3]);
    OneStep(s, node, certMissing, evs[..4], evs[4]);
    assert evs[..3] == [evs[0], evs[1], evs[2]] && evs[..3] + [evs[3]] == evs[..4] && evs[..4] + [evs[4]] == evs;
  }
}
