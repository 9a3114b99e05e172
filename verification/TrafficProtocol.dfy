/**
 The traffic accounting protocol between one agent and the panel, as a step
 system: the agent's buffer and its file, the link, and the panel's books.

 A run is any sequence of events. An event that is not possible in a state
 leaves the state unchanged, so every theorem below is about every run.
 */
module TrafficProtocol {
  import opened Traffic
  import opened PendingSpec

  datatype Frame = Frame(seqNo: int, items: seq<Item>)

  /** The panel's side for one node; `credited` and `ignored` are its history. */
  datatype Books = Books(last: int, credited: Amounts, ignored: Amounts)

  datatype State = State(
    buffer: Buffer,        // the agent's memory
    file: Buffer,          // its durable copy
    linked: bool,          // whether the agent has registered on a live link
    up: seq<Frame>,        // traffic frames on the current link, oldest first
    acks: set<int>,        // every ack the panel ever queued: may arrive late, twice, or never
    books: Books,
    collected: Amounts     // history of everything read from Xray
  )

  datatype Event =
    | Collect(items: seq<Item>)
    | Send(listing: seq<Item>)
    | Deliver(allowed: set<string>, ackQueued: bool)
    | LoseFrame(i: nat)
    | DeliverAck(seqNo: int)
    | Disconnect
    | Register
    | RestartAgent
    | RestartPanel

  // ---- the panel ----

  /** The items the panel credits: those of users assigned to the node. */
  function Filter(items: seq<Item>, allowed: set<string>, keep: bool): seq<Item> {
    if items == [] then []
    else Filter(items[..|items| - 1], allowed, keep) +
         One(items[|items| - 1], (items[|items| - 1].email in allowed) == keep)
  }

  function One(it: Item, keep: bool): seq<Item> {
    if keep then [it] else []
  }

  /** Applies a batch unless its number equals the last one applied. */
  function Ingest(b: Books, allowed: set<string>, f: Frame): Books {
    if f.seqNo != 0 && f.seqNo == b.last then b
    else Books(if f.seqNo != 0 then f.seqNo else b.last,
               Merge(b.credited, Filter(f.items, allowed, true)),
               Merge(b.ignored, Filter(f.items, allowed, false)))
  }

  // ---- steps ----

  function DoCollect(s: State, items: seq<Item>): State {
    if items == [] then s
    else
      s.(buffer := PendingSpec.Collect(s.buffer, items), file := PendingSpec.Collect(s.buffer, items),
         collected := Merge(s.collected, items))
  }

  /** Sends the current batch, promoting one first if none is in flight. */
  ghost function DoSend(s: State, listing: seq<Item>): State {
    if s.linked && Promote(s.buffer).flightAt && listing != [] && Lists(listing, Promote(s.buffer).flight) then
      s.(buffer := Promote(s.buffer), file := Promote(s.buffer),
         up := s.up + [Frame(Promote(s.buffer).lastSeq, listing)])
    else s
  }

  function DoDeliver(s: State, allowed: set<string>, ackQueued: bool): State {
    if s.up == [] then s
    else
      s.(books := Ingest(s.books, allowed, s.up[0]), up := s.up[1..],
         acks := if ackQueued then s.acks + {s.up[0].seqNo} else s.acks)
  }

  function DoLose(s: State, i: nat): State {
    if i < |s.up| then s.(up := s.up[..i] + s.up[i + 1..]) else s
  }

  function DoAck(s: State, seqNo: int): State {
    if seqNo in s.acks then s.(buffer := Ack(s.buffer, seqNo), file := Ack(s.buffer, seqNo)) else s
  }

  ghost function Next(s: State, ev: Event): State {
    match ev
    case Collect(items) => DoCollect(s, items)
    case Send(listing) => DoSend(s, listing)
    case Deliver(allowed, ackQueued) => DoDeliver(s, allowed, ackQueued)
    case LoseFrame(i) => DoLose(s, i)
    case DeliverAck(seqNo) => DoAck(s, seqNo)
    // Frames already written may still arrive until the next registration.
    case Disconnect => s.(linked := false)
    case Register => s.(linked := true, up := [])
    case RestartAgent => s.(buffer := s.file, linked := false)
    // The books are durable; the links are not.
    case RestartPanel => s.(linked := false, up := [])
  }

  ghost function Run(s: State, evs: seq<Event>): State {
    if evs == [] then s else Next(Run(s, evs[..|evs| - 1]), evs[|evs| - 1])
  }

  /** A fresh agent buffer facing a panel whose last applied number is `l`. */
  function Start(l: int): State {
    State(EMPTY, EMPTY, false, [], {}, Books(l, map[], map[]), map[])
  }

  // ---- the invariant ----

  /** Whether the panel has already applied the agent's newest batch. */
  predicate Applied(s: State) {
    s.buffer.lastSeq >= 1 && s.books.last == s.buffer.lastSeq
  }

  function InFlight(s: State, e: string, d: Direction): int {
    if s.buffer.flightAt && !Applied(s) then Count(s.buffer.flight, e, d) else 0
  }

  /** Every collected byte is in the books once, or still on its way, but not both. */
  predicate ConservedAt(s: State, e: string, d: Direction) {
    Count(s.collected, e, d) ==
    Count(s.books.credited, e, d) + Count(s.books.ignored, e, d) + InFlight(s, e, d) + Count(s.buffer.pend, e, d)
  }

  ghost predicate Conserved(s: State) {
    forall e, d :: ConservedAt(s, e, d)
  }

  /** The number the panel remembers while batch `n` is still unapplied. */
  function Previous(l: int, n: int): int {
    if n <= 1 then l else n - 1
  }

  ghost predicate Agrees(s: State, l: int) {
    && Consistent(s.buffer)
    && s.file == s.buffer
    && 0 <= s.buffer.lastSeq
    && (s.buffer.lastSeq == 0 ==> !s.buffer.flightAt)
    && (s.books.last == Previous(l, s.buffer.lastSeq) || Applied(s))
    && (!s.buffer.flightAt && s.buffer.lastSeq >= 1 ==> Applied(s))
  }

  /** Queued frames never fall behind the panel, and the newest one is the batch in flight. */
  ghost predicate FrameOk(s: State, f: Frame) {
    && 1 <= f.seqNo <= s.buffer.lastSeq
    && (f.seqNo == s.books.last || (f.seqNo == s.buffer.lastSeq && s.buffer.flightAt))
    && (f.seqNo == s.buffer.lastSeq && s.buffer.flightAt ==> Lists(f.items, s.buffer.flight))
  }

  ghost predicate LinkOk(s: State) {
    && (forall i :: 0 <= i < |s.up| ==> FrameOk(s, s.up[i]))
    && (forall i, j :: 0 <= i < j < |s.up| ==> s.up[i].seqNo <= s.up[j].seqNo)
  }

  ghost predicate AcksOk(s: State) {
    forall a :: a in s.acks ==> a <= s.buffer.lastSeq && (a == s.buffer.lastSeq ==> Applied(s))
  }

  ghost predicate Inv(s: State, l: int) {
    Agrees(s, l) && LinkOk(s) && AcksOk(s) && Conserved(s)
  }

  // ---- each step keeps it ----

  lemma {:induction false} FilterReports(items: seq<Item>, allowed: set<string>, keep: bool, e: string, d: Direction)
    ensures Reported(Filter(items, allowed, keep), e, d) ==
            if (e in allowed) == keep then Reported(items, e, d) else 0
  {
    if items != [] {
      var it := items[|items| - 1];
      var rest := Filter(items[..|items| - 1], allowed, keep);
      FilterReports(items[..|items| - 1], allowed, keep, e, d);
      if (it.email in allowed) == keep {
        assert (rest + [it])[..|rest|] == rest;
        assert Reported(rest + [it], e, d) == Reported(rest, e, d) + Share(it, e, d);
      } else {
        assert rest + [] == rest;
      }
    }
  }

  /** Whatever the assignment of users, an applied batch enters the books exactly once. */
  lemma IngestAdds(b: Books, allowed: set<string>, f: Frame, e: string, d: Direction)
    requires f.seqNo == 0 || f.seqNo != b.last
    ensures var c := Ingest(b, allowed, f);
            Count(c.credited, e, d) + Count(c.ignored, e, d) ==
            Count(b.credited, e, d) + Count(b.ignored, e, d) + Reported(f.items, e, d)
  {
    MergeAdds(b.credited, Filter(f.items, allowed, true), e, d);
    MergeAdds(b.ignored, Filter(f.items, allowed, false), e, d);
    FilterReports(f.items, allowed, true, e, d);
    FilterReports(f.items, allowed, false, e, d);
  }

  lemma CollectConserves(s: State, items: seq<Item>, e: string, d: Direction)
    requires ConservedAt(s, e, d)
    ensures ConservedAt(DoCollect(s, items), e, d)
  {
    MergeAdds(s.collected, items, e, d);
    MergeAdds(s.buffer.pend, items, e, d);
  }

  /** Applying the batch in flight moves its bytes from the link to the books. */
  lemma DeliverConserves(s: State, allowed: set<string>, ackQueued: bool, e: string, d: Direction)
    requires ConservedAt(s, e, d) && !Applied(s) && s.buffer.flightAt
    requires s.up != [] && s.up[0].seqNo == s.buffer.lastSeq >= 1 && Lists(s.up[0].items, s.buffer.flight)
    ensures ConservedAt(DoDeliver(s, allowed, ackQueued), e, d)
  {
    IngestAdds(s.books, allowed, s.up[0], e, d);
    ListingReports(s.up[0].items, s.buffer.flight, e, d);
  }

  lemma CollectKeeps(s: State, l: int, items: seq<Item>)
    requires Inv(s, l)
    ensures Inv(DoCollect(s, items), l)
  {
    var t := DoCollect(s, items);
    if items != [] {
      forall i | 0 <= i < |t.up|
        ensures FrameOk(t, t.up[i])
      {
        assert FrameOk(s, s.up[i]);
      }
      forall e, d
        ensures ConservedAt(t, e, d)
      {
        assert ConservedAt(s, e, d);
        CollectConserves(s, items, e, d);
      }
    }
  }

  /** Promotion moves the pending bytes into flight under a number the panel has not applied. */
  lemma PromoteKeeps(s: State, l: int)
    requires l != 1 && Inv(s, l)
    ensures Inv(s.(buffer := Promote(s.buffer), file := Promote(s.buffer)), l)
  {
    var t := s.(buffer := Promote(s.buffer), file := Promote(s.buffer));
    if t != s {
      assert t.buffer.lastSeq == s.buffer.lastSeq + 1 && t.buffer.flightAt;
      assert !Applied(t);
      forall i | 0 <= i < |t.up|
        ensures FrameOk(t, t.up[i])
      {
        assert FrameOk(s, s.up[i]);
      }
      forall e, d
        ensures ConservedAt(t, e, d)
      {
        assert ConservedAt(s, e, d);
      }
    }
  }

  lemma SendKeeps(s: State, l: int, listing: seq<Item>)
    requires l != 1 && Inv(s, l)
    ensures Inv(DoSend(s, listing), l)
  {
    var t := DoSend(s, listing);
    if t != s {
      PromoteKeeps(s, l);
      var p := s.(buffer := Promote(s.buffer), file := Promote(s.buffer));
      assert forall i :: 0 <= i < |p.up| ==> FrameOk(p, p.up[i]);
      forall i | 0 <= i < |t.up|
        ensures FrameOk(t, t.up[i]) && t.up[i].seqNo <= t.buffer.lastSeq
      {
        if i < |s.up| {
          assert t.up[i] == p.up[i];
        }
      }
      assert Conserved(t) by {
        assert forall e, d :: ConservedAt(p, e, d) ==> ConservedAt(t, e, d);
      }
    }
  }

  lemma DeliverKeeps(s: State, l: int, allowed: set<string>, ackQueued: bool)
    requires l != 1 && Inv(s, l)
    ensures Inv(DoDeliver(s, allowed, ackQueued), l)
  {
    if s.up != [] {
      var t := DoDeliver(s, allowed, ackQueued);
      var f := s.up[0];
      assert FrameOk(s, f);
      forall i | 0 <= i < |t.up|
        ensures FrameOk(t, t.up[i])
      {
        assert t.up[i] == s.up[i + 1] && FrameOk(s, s.up[i + 1]) && f.seqNo <= s.up[i + 1].seqNo;
      }
      if f.seqNo == s.books.last {
        assert t.books == s.books;
        DuplicateIgnored(s, l, allowed, ackQueued);
      } else {
        assert t.books.last == s.buffer.lastSeq && Applied(t) && !Applied(s);
        forall e, d
          ensures ConservedAt(t, e, d)
        {
          assert ConservedAt(s, e, d);
          DeliverConserves(s, allowed, ackQueued, e, d);
        }
      }
    }
  }

  /** A resent batch changes nothing in the books, only possibly the acks. */
  lemma DuplicateIgnored(s: State, l: int, allowed: set<string>, ackQueued: bool)
    requires l != 1 && Inv(s, l) && s.up != [] && s.up[0].seqNo == s.books.last
    ensures Conserved(DoDeliver(s, allowed, ackQueued)) && AcksOk(DoDeliver(s, allowed, ackQueued))
    ensures DoDeliver(s, allowed, ackQueued).books == s.books
  {
    var t := DoDeliver(s, allowed, ackQueued);
    assert FrameOk(s, s.up[0]);
    assert forall e, d :: ConservedAt(s, e, d) ==> ConservedAt(t, e, d);
  }

  lemma LoseKeeps(s: State, l: int, i: nat)
    requires Inv(s, l)
    ensures Inv(DoLose(s, i), l)
  {
    var t := DoLose(s, i);
    if i < |s.up| {
      forall k | 0 <= k < |t.up|
        ensures FrameOk(t, t.up[k])
      {
        assert FrameOk(s, s.up[if k < i then k else k + 1]);
      }
      assert forall e, d :: ConservedAt(s, e, d) ==> ConservedAt(t, e, d);
    }
  }

  lemma AckKeeps(s: State, l: int, seqNo: int)
    requires Inv(s, l)
    ensures Inv(DoAck(s, seqNo), l)
  {
    var t := DoAck(s, seqNo);
    if t != s {
      assert Applied(s);
      forall i | 0 <= i < |t.up|
        ensures FrameOk(t, t.up[i])
      {
        assert FrameOk(s, s.up[i]);
      }
      assert forall e, d :: ConservedAt(s, e, d) ==> ConservedAt(t, e, d);
    }
  }

  lemma NextKeeps(s: State, l: int, ev: Event)
    requires l != 1 && Inv(s, l)
    ensures Inv(Next(s, ev), l)
  {
    match ev
    case Collect(items) => CollectKeeps(s, l, items);
    case Send(listing) => SendKeeps(s, l, listing);
    case Deliver(allowed, ackQueued) => DeliverKeeps(s, l, allowed, ackQueued);
    case LoseFrame(i) => LoseKeeps(s, l, i);
    case DeliverAck(seqNo) => AckKeeps(s, l, seqNo);
    case Disconnect => RelinkKeeps(s, l, false, s.up);
    case Register => RelinkKeeps(s, l, true, []);
    case RestartAgent => RelinkKeeps(s, l, false, s.up);
    case RestartPanel => RelinkKeeps(s, l, false, []);
  }

  lemma RelinkKeeps(s: State, l: int, linked: bool, up: seq<Frame>)
    requires Inv(s, l) && (up == s.up || up == [])
    ensures Inv(s.(linked := linked, up := up), l)
  {
    var t := s.(linked := linked, up := up);
    forall i | 0 <= i < |t.up|
      ensures FrameOk(t, t.up[i])
    {
      assert FrameOk(s, s.up[i]);
    }
    assert forall e, d :: ConservedAt(s, e, d) ==> ConservedAt(t, e, d);
  }

  // ---- the theorems ----

  lemma StartInv(l: int)
    ensures Inv(Start(l), l)
  {
  }

  lemma {:induction false} InvHolds(l: int, evs: seq<Event>)
    requires l != 1
    ensures Inv(Run(Start(l), evs), l)
  {
    if evs == [] {
      StartInv(l);
    } else {
      InvHolds(l, evs[..|evs| - 1]);
      NextKeeps(Run(Start(l), evs[..|evs| - 1]), l, evs[|evs| - 1]);
    }
  }

  /**
   Exactly-once accounting in every run that starts from a fresh buffer: every byte
   collected is credited, ignored, in flight and not yet applied, or pending.
   */
  lemma ExactlyOnce(l: int, evs: seq<Event>, e: string, d: Direction)
    requires l != 1
    ensures var s := Run(Start(l), evs);
            Count(s.collected, e, d) ==
            Count(s.books.credited, e, d) + Count(s.books.ignored, e, d) +
            (if s.buffer.flightAt && s.books.last != s.buffer.lastSeq then Count(s.buffer.flight, e, d) else 0) +
            Count(s.buffer.pend, e, d)
  {
    InvHolds(l, evs);
    assert ConservedAt(Run(Start(l), evs), e, d);
  }

  /**
   From zero, comparing for equality is enough: the panel is never more than one
   batch behind, never ahead, and every frame still queued is either the batch in
   flight or a duplicate of the last one applied, in order.
   */
  lemma EqualityDedupSuffices(evs: seq<Event>)
    ensures var s := Run(Start(0), evs);
            && (s.books.last == s.buffer.lastSeq || s.books.last == s.buffer.lastSeq - 1)
            && (!s.buffer.flightAt ==> s.books.last == s.buffer.lastSeq)
            && (forall i :: 0 <= i < |s.up| ==> s.books.last <= s.up[i].seqNo <= s.buffer.lastSeq)
            && (forall i, j :: 0 <= i < j < |s.up| ==> s.up[i].seqNo <= s.up[j].seqNo)
  {
    InvHolds(0, evs);
    var s := Run(Start(0), evs);
    assert forall i :: 0 <= i < |s.up| ==> FrameOk(s, s.up[i]);
  }

  /** No ack, however late, repeated or reordered, clears a batch the panel has not applied. */
  lemma AckOnlyClearsApplied(l: int, evs: seq<Event>, seqNo: int)
    requires l != 1
    ensures var s := Run(Start(l), evs);
            DoAck(s, seqNo).buffer != s.buffer ==> Applied(s)
  {
    InvHolds(l, evs);
  }

  /** Nothing in flight and nothing pending: the books hold everything ever collected. */
  lemma QuiescentBooksBalance(l: int, evs: seq<Event>, e: string, d: Direction)
    requires l != 1
    requires !Run(Start(l), evs).buffer.flightAt && Run(Start(l), evs).buffer.pend == map[]
    ensures var s := Run(Start(l), evs);
            Count(s.collected, e, d) == Count(s.books.credited, e, d) + Count(s.books.ignored, e, d)
  {
    InvHolds(l, evs);
    assert ConservedAt(Run(Start(l), evs), e, d);
  }

  // ---- a lost buffer ----

  /** A run that collects one byte, sends it and sees it acked. */
  function FirstBatchRun(): seq<Event> {
    [Collect([Item("a", Bytes(1, 0))]), Register, Send([Item("a", Bytes(1, 0))]), Deliver({"a"}, true), DeliverAck(1)]
  }

  lemma RunStep(s: State, evs: seq<Event>, ev: Event)
    ensures Run(s, evs + [ev]) == Next(Run(s, evs), ev)
  {
  }

  /** The state when that batch arrives: the panel takes its number for a duplicate. */
  lemma FirstBatchSent(it: Item, m: Amounts)
    requires it == Item("a", Bytes(1, 0)) && m == map["a" := Bytes(1, 0)]
    ensures Run(Start(1), [Collect([it]), Register, Send([it])]) ==
            State(Buffer(1, m, true, map[]), Buffer(1, m, true, map[]), true, [Frame(1, [it])], {},
                  Books(1, map[], map[]), m)
  {
    assert Merge(map[], [it]) == m by {
      assert [it][..0] == [];
      assert Merge(map[], [it]) == MergeOne(Merge(map[], []), it);
    }
    var s1 := Start(1).(buffer := EMPTY.(pend := m), file := EMPTY.(pend := m), collected := m);
    assert Next(Start(1), Collect([it])) == s1;
    assert Lists([it], m);
    RunStep(Start(1), [], Collect([it]));
    RunStep(Start(1), [Collect([it])], Register);
    RunStep(Start(1), [Collect([it]), Register], Send([it]));
    assert [] + [Collect([it])] == [Collect([it])];
    assert [Collect([it])] + [Register] == [Collect([it]), Register];
    assert [Collect([it]), Register] + [Send([it])] == [Collect([it]), Register, Send([it])];
  }

  /** A panel that last applied number 1 acks a fresh buffer's first batch without counting it. */
  lemma FirstBatchLost()
    ensures !Conserved(Run(Start(1), FirstBatchRun()))
  {
    var it := Item("a", Bytes(1, 0));
    var m: Amounts := map["a" := Bytes(1, 0)];
    FirstBatchSent(it, m);
    var sent := [Collect([it]), Register, Send([it])];
    RunStep(Start(1), sent, Deliver({"a"}, true));
    RunStep(Start(1), sent + [Deliver({"a"}, true)], DeliverAck(1));
    assert FirstBatchRun() == sent + [Deliver({"a"}, true)] + [DeliverAck(1)];
    assert !ConservedAt(Run(Start(1), FirstBatchRun()), "a", Up);
  }

  /**
   An agent whose buffer was lost restarts at batch 1. Everything it collects from
   then on is counted exactly once in every run if and only if the panel's last
   applied number is not 1.
   */
  lemma RebaselineExact(l: int)
    ensures l != 1 <==> forall evs :: Conserved(Run(Start(l), evs))
  {
    if l == 1 {
      FirstBatchLost();
    } else {
      forall evs
        ensures Conserved(Run(Start(l), evs))
      {
        InvHolds(l, evs);
      }
    }
  }

  /**
   Why registering must discard the old link: a frame older than the last applied
   batch would be applied a second time, because only equality is checked.
   */
  lemma StaleFrameCountsTwice(s: State, f: Frame, allowed: set<string>, e: string, d: Direction)
    requires ConservedAt(s, e, d) && Applied(s) && !s.buffer.flightAt
    requires 1 <= f.seqNo < s.books.last && Reported(f.items, e, d) != 0
    ensures !ConservedAt(DoDeliver(s.(up := [f] + s.up), allowed, false), e, d)
  {
    IngestAdds(s.books, allowed, f, e, d);
  }

  // ---- resends ----

  /** Batch `n` with contents `m` is in flight. */
  predicate Sending(b: Buffer, n: int, m: Amounts) {
    b.flightAt && b.lastSeq == n && b.flight == m
  }

  /** From a state where batch `n` holds `m`: it still does, or it has been acked for good. */
  predicate Stable(b: Buffer, n: int, m: Amounts) {
    Sending(b, n, m) || b.lastSeq > n || (b.lastSeq == n && !b.flightAt)
  }

  lemma StableStep(s: State, ev: Event, n: int, m: Amounts)
    requires s.file == s.buffer && Stable(s.buffer, n, m)
    ensures Next(s, ev).file == Next(s, ev).buffer && Stable(Next(s, ev).buffer, n, m)
  {
  }

  /**
   From its promotion on, a batch keeps its number and contents until it is acked,
   whatever is collected, lost or restarted in between.
   */
  lemma {:induction false} ResendStable(s: State, evs: seq<Event>, n: int, m: Amounts)
    requires s.file == s.buffer && Sending(s.buffer, n, m)
    ensures var t := Run(s, evs);
            t.file == t.buffer && Stable(t.buffer, n, m) &&
            (t.buffer.flightAt && t.buffer.lastSeq == n ==> t.buffer.flight == m)
  {
    if evs != [] {
      ResendStable(s, evs[..|evs| - 1], n, m);
      StableStep(Run(s, evs[..|evs| - 1]), evs[|evs| - 1], n, m);
    }
  }

  // ---- every state can settle ----

  /** What was pending becomes the next batch, under the next number, when nothing is in flight. */
  lemma SendPromotes(s: State, listing: seq<Item>)
    requires s.linked && !s.buffer.flightAt && s.buffer.pend != map[] && Lists(listing, s.buffer.pend)
    ensures var t := Next(s, Send(listing));
            && t.buffer == Buffer(s.buffer.lastSeq + 1, s.buffer.pend, true, map[])
            && t.up == s.up + [Frame(s.buffer.lastSeq + 1, listing)] && t.file == t.buffer
            && t == s.(buffer := t.buffer, file := t.file, up := t.up)
  {
    ListingEmpty(listing, s.buffer.pend);
  }

  /** A batch in flight is sent again as it is. */
  lemma SendResends(s: State, listing: seq<Item>)
    requires s.linked && s.buffer.flightAt && s.buffer.flight != map[] && Lists(listing, s.buffer.flight)
    ensures Next(s, Send(listing)) == s.(file := s.buffer, up := s.up + [Frame(s.buffer.lastSeq, listing)])
  {
    ListingEmpty(listing, s.buffer.flight);
  }

  /** A frame that is lost is sent again, unchanged. */
  lemma LostIsResent(s: State, listing: seq<Item>)
    requires s.linked && s.up == []
    requires s.buffer.flightAt && s.buffer.flight != map[] && Lists(listing, s.buffer.flight)
    ensures var lost := Next(Next(s, Send(listing)), LoseFrame(0));
            && lost.up == [] && lost.buffer == s.buffer
            && Next(lost, Send(listing)).up == [Frame(s.buffer.lastSeq, listing)]
  {
    hide Lists;
    SendResends(s, listing);
    SendResends(Next(Next(s, Send(listing)), LoseFrame(0)), listing);
  }

  /** An agent that restarts resumes from its file: the batch in flight there is what it sends first. */
  lemma RestartResends(s: State, listing: seq<Item>)
    requires s.file.flightAt && s.file.flight != map[] && Lists(listing, s.file.flight)
    ensures var r := Next(Next(Next(s, RestartAgent), Register), Send(listing));
            r.buffer == s.file && r.up == [Frame(s.file.lastSeq, listing)] && r.books == s.books
  {
    hide Lists;
    SendResends(Next(Next(s, RestartAgent), Register), listing);
  }

  /**
   Once the link is lost, at either end, nothing is sent until the agent registers
   again; frames already written still arrive, unless the panel itself has restarted.
   */
  lemma NothingSentUnlinked(s: State, listing: seq<Item>)
    ensures forall ev :: ev == Disconnect || ev == RestartAgent || ev == RestartPanel ==>
              var r := Next(s, ev);
              && Next(r, Send(listing)) == r && r.books == s.books
              && r.up == (if ev == RestartPanel then [] else s.up)
  {
    hide Lists;
  }

  /** The round trip of one batch: registered, sent, delivered, its ack delivered. */
  function RoundTrip(n: int, listing: seq<Item>, allowed: set<string>): seq<Event> {
    [Register, Send(listing), Deliver(allowed, true), DeliverAck(n)]
  }

  lemma Run4(s: State, e0: Event, e1: Event, e2: Event, e3: Event)
    ensures Run(s, [e0, e1, e2, e3]) == Next(Next(Next(Next(s, e0), e1), e2), e3)
  {
    RunStep(s, [], e0);
    RunStep(s, [e0], e1);
    RunStep(s, [e0, e1], e2);
    RunStep(s, [e0, e1, e2], e3);
    assert [] + [e0] == [e0] && [e0] + [e1] == [e0, e1] && [e0, e1] + [e2] == [e0, e1, e2];
    assert [e0, e1, e2] + [e3] == [e0, e1, e2, e3];
  }

  lemma DeliverOnly(s: State, f: Frame, allowed: set<string>)
    requires s.up == [f]
    ensures var t := Next(s, Deliver(allowed, true));
            && t.up == [] && f.seqNo in t.acks && t.buffer == s.buffer && t.file == s.file && t.collected == s.collected
  {
  }

  /**
   One round trip with its ack leaves nothing in flight: the number stays, and what was
   pending meanwhile is untouched.
   */
  lemma RoundTripClears(s: State, listing: seq<Item>, allowed: set<string>)
    requires s.buffer.flightAt && s.buffer.flight != map[] && Lists(listing, s.buffer.flight)
    ensures var t := Run(s, RoundTrip(s.buffer.lastSeq, listing, allowed));
            && t.buffer == Buffer(s.buffer.lastSeq, map[], false, s.buffer.pend)
            && t.collected == s.collected && t.linked
  {
    hide DoSend, Ingest, Run;
    var s1 := Next(s, Register);
    SendResends(s1, listing);
    var s2 := Next(s1, Send(listing));
    assert [] + [Frame(s.buffer.lastSeq, listing)] == [Frame(s.buffer.lastSeq, listing)];
    DeliverOnly(s2, Frame(s.buffer.lastSeq, listing), allowed);
    Run4(s, Register, Send(listing), Deliver(allowed, true), DeliverAck(s.buffer.lastSeq));
  }

  /** Pending amounts go out the same way, under the next number. */
  lemma RoundTripSends(s: State, listing: seq<Item>, allowed: set<string>)
    requires !s.buffer.flightAt && s.buffer.pend != map[] && Lists(listing, s.buffer.pend)
    ensures var t := Run(s, RoundTrip(s.buffer.lastSeq + 1, listing, allowed));
            && t.buffer == Buffer(s.buffer.lastSeq + 1, map[], false, map[])
            && t.collected == s.collected && t.linked
  {
    hide DoSend, Ingest, Run;
    var s1 := Next(s, Register);
    SendPromotes(s1, listing);
    var s2 := Next(s1, Send(listing));
    assert [] + [Frame(s.buffer.lastSeq + 1, listing)] == [Frame(s.buffer.lastSeq + 1, listing)];
    DeliverOnly(s2, Frame(s.buffer.lastSeq + 1, listing), allowed);
    Run4(s, Register, Send(listing), Deliver(allowed, true), DeliverAck(s.buffer.lastSeq + 1));
  }

  lemma {:induction false} RunAppend(s: State, a: seq<Event>, b: seq<Event>)
    ensures Run(s, a + b) == Run(Run(s, a), b)
  {
    if b == [] {
      assert a + b == a;
    } else {
      RunAppend(s, a, b[..|b| - 1]);
      assert (a + b)[..|a + b| - 1] == a + b[..|b| - 1];
    }
  }

  lemma CanSettle(s: State, allowed: set<string>) returns (more: seq<Event>)
    requires Consistent(s.buffer)
    ensures |more| <= 8 && forall ev :: ev in more && ev.Deliver? ==> ev.allowed == allowed
    ensures var t := Run(s, more);
            !t.buffer.flightAt && t.buffer.pend == map[] && t.collected == s.collected
  {
    hide Next, RoundTrip, Lists;
    var first: seq<Event> := [];
    if s.buffer.flightAt {
      var listing := ListingExists(s.buffer.flight);
      first := RoundTrip(s.buffer.lastSeq, listing, allowed);
      RoundTripClears(s, listing, allowed);
      RoundTripShape(s.buffer.lastSeq, listing, allowed);
    }
    var t := Run(s, first);
    more := first;
    if t.buffer.pend != map[] {
      var listing := ListingExists(t.buffer.pend);
      var second := RoundTrip(t.buffer.lastSeq + 1, listing, allowed);
      RoundTripSends(t, listing, allowed);
      RoundTripShape(t.buffer.lastSeq + 1, listing, allowed);
      RunAppend(s, first, second);
      more := first + second;
    }
  }

  lemma RoundTripShape(n: int, listing: seq<Item>, allowed: set<string>)
    ensures |RoundTrip(n, listing, allowed)| == 4
    ensures forall ev :: ev in RoundTrip(n, listing, allowed) && ev.Deliver? ==> ev.allowed == allowed
  {
  }

  /**
   Nothing is ever stuck: every reachable state is at most two round trips away from
   one with nothing in flight and nothing pending, where the books hold everything
   that had been collected.
   */
  lemma EverythingSettles(l: int, evs: seq<Event>, allowed: set<string>) returns (more: seq<Event>)
    requires l != 1
    ensures |more| <= 8
    ensures var s, t := Run(Start(l), evs), Run(Start(l), evs + more);
            && !t.buffer.flightAt && t.buffer.pend == map[]
            && forall e, d :: Count(t.books.credited, e, d) + Count(t.books.ignored, e, d) == Count(s.collected, e, d)
  {
    hide Inv, Run;
    InvHolds(l, evs);
    ConsistentHolds(Run(Start(l), evs), l);
    more := CanSettle(Run(Start(l), evs), allowed);
    RunAppend(Start(l), evs, more);
    forall e, d
      ensures var s, t := Run(Start(l), evs), Run(Start(l), evs + more);
              Count(t.books.credited, e, d) + Count(t.books.ignored, e, d) == Count(s.collected, e, d)
    {
      QuiescentBooksBalance(l, evs + more, e, d);
    }
  }

  lemma ConsistentHolds(s: State, l: int)
    requires Inv(s, l)
    ensures Consistent(s.buffer)
  {
  }

  /** Reading counters adds exactly what they report to what is pending, and touches nothing in flight. */
  lemma CollectAdds(s: State, items: seq<Item>, e: string, d: Direction)
    ensures var t := Next(s, Collect(items));
            && Count(t.collected, e, d) == Count(s.collected, e, d) + Reported(items, e, d)
            && Count(t.buffer.pend, e, d) == Count(s.buffer.pend, e, d) + Reported(items, e, d)
            && t.buffer == s.buffer.(pend := t.buffer.pend)
  {
    MergeAdds(s.collected, items, e, d);
    MergeAdds(s.buffer.pend, items, e, d);
  }
}
