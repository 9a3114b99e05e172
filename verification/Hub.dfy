/**
 The hub as the object the source updates in place: live connections with bounded
 write queues that are closed once, and the sync operations driven through them
 (internal/panel/hub.go, internal/panel/traffic.go).
 */
module Hub {
  import opened StoreSpec
  import opened Signature
  import opened Provisioning
  import opened PushCache

  class NodeConn {
    const nodeId: int
    var queued: seq<Msg>
    var unsent: nat
    var closed: bool
    ghost var synced: bool
    ghost var closes: nat

    constructor (nodeId: int)
      ensures this.nodeId == nodeId && queued == [] && unsent == 0 && !closed && !synced && closes == 0
    {
      this.nodeId := nodeId;
      queued, unsent, closed := [], 0, false;
      synced, closes := false, 0;
    }

    /** Closing happens once; later calls do nothing. */
    method Close()
      modifies this`closed, this`closes
      ensures closed && closes == if old(closed) then old(closes) else old(closes) + 1
    {
      if !closed {
        closed := true;
        closes := closes + 1;
      }
    }

    /** Never blocks: a full queue or a closed connection drops the message. */
    method TrySend(m: Msg) returns (sent: bool)
      modifies this`queued, this`unsent
      ensures sent <==> !closed && old(unsent) < 8
      ensures queued == if sent then old(queued) + [m] else old(queued)
      ensures unsent == if sent then old(unsent) + 1 else old(unsent)
    {
      if closed || unsent >= CAPACITY {
        return false;
      }
      queued, unsent := queued + [m], unsent + 1;
      sent := true;
    }

    /** The write loop takes the oldest message still in the queue. */
    method TakeNext() returns (m: Msg)
      requires 0 < unsent <= |queued|
      modifies this`unsent
      ensures m == queued[|queued| - old(unsent)] && unsent == old(unsent) - 1
    {
      m := queued[|queued| - unsent];
      unsent := unsent - 1;
    }
  }

  class NodeHub {
    var db: Tables
    var now: int
    var conns: map<int, NodeConn>
    var cache: map<int, string>
    ghost var unpushed: set<int>    // nodes with saved settings still to be pushed

    /** A mapped connection is filed under its own node and is never closed. */
    ghost predicate Valid()
      reads this, conns.Values
    {
      forall n :: n in conns ==> conns[n].nodeId == n && !conns[n].closed && conns[n].closes == 0
    }

    ghost function View(): Panel
      reads this, conns.Values
    {
      Panel(db, now, map n | n in conns :: PushCache.Conn(conns[n].queued, conns[n].unsent, conns[n].synced),
            cache, unpushed)
    }

    /** The newest connection of a node replaces, and closes, the previous one. */
    method Register(c: NodeConn)
      requires Valid() && c !in conns.Values && !c.closed && c.closes == 0
      modifies this`conns, conns.Values
      ensures Valid() && conns == old(conns)[c.nodeId := c]
      ensures c.nodeId in old(conns) ==> old(conns)[c.nodeId].closed && old(conns)[c.nodeId].closes == 1
      ensures c.queued == [] && c.unsent == 0 && !c.synced && c.nodeId in db.nodes ==>
                View() == Next(old(View()), Connect(c.nodeId))
    {
      StepsAre(View(), c.nodeId, 0);
      hide Next;
      if c.nodeId in conns {
        var prior := conns[c.nodeId];
        prior.Close();
      }
      conns := conns[c.nodeId := c];
    }

    /** Removes the connection only if it is still the node's current one, and closes it. */
    method Unregister(c: NodeConn) returns (removed: bool)
      requires Valid() && c.closes == (if c.closed then 1 else 0)
      modifies this`conns, c
      ensures Valid() && c.closed && c.closes == 1
      ensures removed <==> c.nodeId in old(conns) && old(conns)[c.nodeId] == c
      ensures conns == if removed then old(conns) - {c.nodeId} else old(conns)
      ensures View() == if removed then Next(old(View()), Disconnect(c.nodeId)) else old(View())
    {
      StepsAre(View(), c.nodeId, 0);
      hide Next;
      removed := c.nodeId in conns && conns[c.nodeId] == c;
      if removed {
        conns := conns - {c.nodeId};
      }
      assert forall n :: n in conns ==> conns[n] != c;
      c.Close();
    }

    method PushConfig(node: int) returns (sent: bool)
      requires Valid()
      modifies conns.Values
      ensures Valid() && sent == CanPush(old(View()), node)
      ensures View() == Push(old(View()), node) && (!sent ==> View() == old(View()))
    {
      ghost var was := View();
      if node !in conns || node !in db.nodes {
        return false;
      }
      var clients := ActiveClients(UsersFor(db, node), now);
      assert clients == ActiveFor(was, node);
      assert forall n :: n in conns && n != node ==> conns[n] != conns[node];
      sent := conns[node].TrySend(ConfigMsg(db.nodes[node].settings, clients));
      assert View().conns == Push(was, node).conns;
    }

    method SyncNode(node: int)
      requires Valid()
      modifies this`cache, conns.Values
      ensures Valid() && View() == PushCache.SyncNode(old(View()), node)
    {
      hide ActiveClients, UsersFor, PreHash, Push, CanPush;
      var sig := ComputeSignature(UsersFor(db, node), now);
      if node in cache && cache[node] == sig {
        return;
      }
      var sent := PushConfig(node);
      if !sent {
        return;
      }
      ghost var pushed := View();
      cache := cache[node := sig];
      assert View() == pushed.(cache := cache);
    }

    method ForceSyncNode(node: int)
      requires Valid()
      modifies this`cache, this`unpushed, conns.Values
      ensures Valid() && View() == ForceSync(old(View()), node)
    {
      hide ActiveClients, UsersFor, PreHash, Push, CanPush;
      var sig := ComputeSignature(UsersFor(db, node), now);
      var sent := PushConfig(node);
      ghost var pushed := View();
      unpushed := unpushed - {node};
      cache := if sent then cache[node := sig] else cache - {node};
      assert View() == pushed.(cache := cache, unpushed := unpushed);
    }

    /** A node that connects is registered and sent its configuration. */
    method HandleConnect(c: NodeConn)
      requires Valid() && c !in conns.Values && !c.closed && c.closes == 0
      requires c.queued == [] && c.unsent == 0 && !c.synced && c.nodeId in db.nodes
      modifies this`conns, this`cache, this`unpushed, conns.Values, c
      ensures Valid() && conns == old(conns)[c.nodeId := c]
      ensures View() == Next(Next(old(View()), Connect(c.nodeId)), ConnectSync(c.nodeId))
    {
      hide ForceSync, Next, PushCache.MarkSynced;
      Register(c);
      StepsAre(View(), c.nodeId, 0);
      ForceSyncNode(c.nodeId);
      MarkSynced(c.nodeId);
    }

    ghost method MarkSynced(node: int)
      requires Valid()
      modifies conns.Values
      ensures Valid() && View() == PushCache.MarkSynced(old(View()), node)
    {
      if node in conns {
        assert forall n :: n in conns && n != node ==> conns[n] != conns[node];
        conns[node].synced := true;
      }
    }

    /** A delivered batch is acked on the connection it came in by: dropped if that has been replaced or is full. */
    method SendAck(c: NodeConn, seqNo: int)
      requires Valid() && (c in conns.Values || c.closed)
      modifies c`queued, c`unsent
      ensures Valid() && (c.closed ==> View() == old(View()))
      ensures !c.closed ==> View() == Next(old(View()), QueueAck(c.nodeId, seqNo))
    {
      StepsAre(View(), c.nodeId, seqNo);
      hide Next;
      assert forall n :: n in conns && n != c.nodeId ==> conns[n] != c;
      var sent := c.TrySend(AckMsg(seqNo));
    }

    /** One enforcement tick reconciles every online node, in the order they happen to be ranged over. */
    method EnforcementTick() returns (ghost order: seq<int>)
      requires Valid()
      modifies this`cache, conns.Values
      ensures Valid() && Orders(order, conns.Keys) && View() == Next(old(View()), Event.EnforcementTick(order))
    {
      hide PushCache.SyncNode, SyncAll, Orders;
      assert View().conns.Keys == conns.Keys;
      var todo := conns.Keys;
      order := [];
      NoneTaken(old(View()));
      while todo != {}
        invariant Valid() && todo <= conns.Keys && Orders(order, conns.Keys - todo)
        invariant View() == SyncAll(old(View()), order)
      {
        Ordering.Inhabited(todo);
        var n :| n in todo;
        SyncNode(n);
        OneMore(old(View()), order, conns.Keys, todo, n);
        order := order + [n];
        todo := todo - {n};
      }
      assert conns.Keys - {} == conns.Keys;
    }
  }

  lemma StepsAre(s: Panel, node: int, seqNo: int)
    ensures node in s.db.nodes ==> Next(s, Connect(node)) == UpdateConn(s, node, PushCache.Conn([], 0, false))
    ensures Next(s, Disconnect(node)) == s.(conns := s.conns - {node})
    ensures Next(s, ConnectSync(node)) == PushCache.MarkSynced(ForceSync(s, node), node)
    ensures Next(s, QueueAck(node, seqNo)) ==
            if node in s.conns then UpdateConn(s, node, Enqueue(s.conns[node], AckMsg(seqNo))) else s
  {
    hide ForceSync, PushCache.SyncNode, SyncAll, DoReport, Ledgers.Apply, Save, PushCache.MarkSynced, Enqueue;
  }

  lemma NoneTaken(s: Panel)
    ensures SyncAll(s, []) == s && forall all: set<int> :: Orders([], all - all)
  {
  }

  /** One more node is synced, and is one more of those taken. */
  lemma OneMore(s: Panel, ids: seq<int>, all: set<int>, todo: set<int>, n: int)
    requires Orders(ids, all - todo) && n in todo && todo <= all
    ensures SyncAll(s, ids + [n]) == PushCache.SyncNode(SyncAll(s, ids), n)
    ensures Orders(ids + [n], all - (todo - {n}))
  {
    assert (ids + [n])[..|ids|] == ids;
    assert n !in ids;
  }
}
