/**
 The agent's durable, ack-gated traffic buffer (internal/agent/pending.go): the
 values it passes through, and the object that goes through them in place.
 */
module PendingSpec {
  import opened Traffic

  /** What the buffer holds; also exactly what its file holds. */
  datatype Buffer = Buffer(lastSeq: int, flight: Amounts, flightAt: bool, pend: Amounts)

  const EMPTY := Buffer(0, map[], false, map[])

  function Collect(b: Buffer, items: seq<Item>): Buffer {
    b.(pend := Merge(b.pend, items))
  }

  /** Promotes the pending amounts to a new batch unless one is in flight. */
  function Promote(b: Buffer): Buffer {
    if b.flightAt || b.pend == map[] then b
    else Buffer(b.lastSeq + 1, b.pend, true, map[])
  }

  function Ack(b: Buffer, seqNo: int): Buffer {
    if b.flightAt && seqNo == b.lastSeq then b.(flight := map[], flightAt := false) else b
  }

  /** Exactly a pending amount with nothing in flight is promoted, whole, under the next number. */
  lemma PromoteWhole(b: Buffer)
    ensures b.flightAt || b.pend == map[] ==> Promote(b) == b
    ensures !b.flightAt && b.pend != map[] ==> Promote(b) == Buffer(b.lastSeq + 1, b.pend, true, map[])
  {
  }

  /** In flight if and only if there is something in flight. */
  ghost predicate Consistent(b: Buffer) {
    b.flightAt <==> b.flight != map[]
  }
}

module Pending {
  import opened Wrappers
  import opened Traffic
  import opened PendingSpec

  /** A mutable counter pair, shared by reference with the maps that hold it. */
  class Pair {
    var up: int
    var down: int

    constructor (up: int, down: int)
      ensures this.up == up && this.down == down
    {
      this.up, this.down := up, down;
    }
  }

  type Cells = map<string, Pair>

  /** No two entries of the maps share a counter object. */
  ghost predicate Unshared(a: Cells, b: Cells) {
    && (forall x, y :: x in a && y in a && x != y ==> a[x] != a[y])
    && (forall x, y :: x in b && y in b && x != y ==> b[x] != b[y])
    && (forall x, y :: x in a && y in b ==> a[x] != b[y])
  }

  function Amount(m: Cells): Amounts
    reads m.Values
  {
    map e | e in m :: Bytes(m[e].up, m[e].down)
  }

  lemma AmountKeys(m: Cells)
    ensures Amount(m).Keys == m.Keys
  {
  }

  /** Adding to an entry just created at zero is adding to a missing one. */
  lemma CreatedAtZero(m: Amounts, email: string, b: Bytes)
    ensures email !in m ==> AddTo(m[email := Bytes(0, 0)], email, b) == AddTo(m, email, b)
  {
  }

  class PendingTraffic {
    const durable: bool
    var lastSeq: int
    var flight: Cells
    var flightAt: bool
    var pend: Cells
    var file: Option<Buffer>

    /** The buffer by value: also its saved image. */
    function View(): Buffer
      reads this, flight.Values, pend.Values
    {
      Buffer(lastSeq, Amount(flight), flightAt, Amount(pend))
    }

    ghost predicate Valid()
      reads this, flight.Values, pend.Values
    {
      Unshared(flight, pend) && (durable ==> file == Some(View()))
    }

    /** Restores the buffer from its file; a missing file gives an empty buffer. */
    constructor (durable: bool, saved: Option<Buffer>)
      ensures this.durable == durable && file == saved && Unshared(flight, pend)
      ensures View() == if saved.Some? then saved.value else EMPTY
      ensures fresh(flight.Values + pend.Values)
    {
      this.durable, file := durable, saved;
      var b := if saved.Some? then saved.value else EMPTY;
      var f := Allocate(b.flight);
      var p := Allocate(b.pend);
      lastSeq, flightAt, flight, pend := b.lastSeq, b.flightAt, f, p;
      assert forall x :: x in f ==> f[x] in f.Values;
      assert forall y :: y in p ==> p[y] in p.Values;
    }

    method Save()
      modifies this`file
      ensures file == if durable then Some(View()) else old(file)
    {
      if durable {
        file := Some(View());
      }
    }

    /** Merges a freshly read delta; the batch in flight is untouched. */
    method Collect(items: seq<Item>)
      requires Valid()
      modifies this, pend.Values
      ensures Valid() && flight == old(flight) && fresh(pend.Values - old(pend.Values))
      ensures View() == PendingSpec.Collect(old(View()), items)
      ensures forall e, d :: Count(View().pend, e, d) == Count(old(View()).pend, e, d) + Reported(items, e, d)
      ensures View() == old(View()).(pend := View().pend)
    {
      forall e, d
        ensures Count(Merge(View().pend, items), e, d) == Count(View().pend, e, d) + Reported(items, e, d)
      {
        MergeAdds(View().pend, items, e, d);
      }
      ghost var was := View();
      if items == [] {
        assert was.pend == Merge(was.pend, items);
        return;
      }
      var k := 0;
      while k < |items|
        invariant 0 <= k <= |items|
        invariant Unshared(flight, pend) && flight == old(flight) && file == old(file)
        invariant lastSeq == was.lastSeq && flightAt == was.flightAt
        invariant fresh(pend.Values - old(pend.Values))
        invariant Amount(flight) == was.flight && Amount(pend) == Merge(was.pend, items[..k])
      {
        assert items[..k + 1][..k] == items[..k];
        MergeOne(items[k]);
        k := k + 1;
      }
      assert items[..k] == items;
      assert View() == PendingSpec.Collect(was, items);
      Save();
    }

    /** The entry for an email, created at zero if it is missing. */
    method Entry(email: string) returns (e: Pair)
      requires Unshared(flight, pend)
      modifies this`pend
      ensures Unshared(flight, pend) && email in pend && pend[email] == e
      ensures fresh(pend.Values - old(pend.Values))
      ensures e in pend.Values && (fresh(e) || e in old(pend.Values))
      ensures Amount(flight) == old(Amount(flight))
      ensures Amount(pend) == if email in old(pend) then old(Amount(pend)) else old(Amount(pend))[email := Bytes(0, 0)]
    {
      if email !in pend {
        e := new Pair(0, 0);
        assert forall x :: x in flight ==> flight[x] in flight.Values;
        assert forall x :: x in pend ==> pend[x] in pend.Values;
        pend := pend[email := e];
      }
      e := pend[email];
    }

    /** Adds to one entry through its pointer: no other entry of either map shares the counter. */
    method AddAt(email: string, e: Pair, b: Bytes)
      requires Unshared(flight, pend) && email in pend && pend[email] == e
      modifies e
      ensures Amount(flight) == old(Amount(flight))
      ensures Amount(pend) == AddTo(old(Amount(pend)), email, b)
    {
      assert forall x :: x in flight ==> flight[x] != e;
      assert forall x :: x in pend && x != email ==> pend[x] != e;
      e.up := e.up + b.up;
      e.down := e.down + b.down;
    }

    /** The body of the merge loop: find or create the entry, then add to it through its pointer. */
    method MergeOne(it: Item)
      requires Unshared(flight, pend)
      modifies this`pend, pend.Values
      ensures Unshared(flight, pend)
      ensures fresh(pend.Values - old(pend.Values))
      ensures Amount(flight) == old(Amount(flight))
      ensures Amount(pend) == Traffic.MergeOne(old(Amount(pend)), it)
    {
      if it.bytes.IsZero() {
        return;
      }
      hide Amount, AddTo;
      CreatedAtZero(Amount(pend), it.email, it.bytes);
      AmountKeys(pend);
      var e := Entry(it.email);
      AddAt(it.email, e, it.bytes);
    }

    /** Turns the pending amounts into the batch in flight, under the next number. */
    method PromotePending()
      requires Valid() && !flightAt && pend != map[]
      modifies this
      ensures Valid() && View() == Promote(old(View()))
      ensures flight == old(pend) && pend == map[] && old(View()).pend != map[]
    {
      var e :| e in pend;
      assert e in Amount(pend);
      lastSeq := lastSeq + 1;
      flight := pend;
      pend := map[];
      flightAt := true;
      assert Amount(pend) == map[];
      Save();
    }

    /** The batch to send: a resend if one is in flight, else a new promotion. */
    method Batch() returns (seqNo: int, items: seq<Item>, ok: bool)
      requires Valid()
      modifies this
      ensures Valid() && View() == Promote(old(View()))
      ensures old(flightAt) || old(View()).pend == map[] ==> View() == old(View())
      ensures !old(flightAt) && old(View()).pend != map[] ==>
                View() == Buffer(old(lastSeq) + 1, old(View()).pend, true, map[])
      ensures flight.Values + pend.Values <= old(flight.Values + pend.Values)
      ensures ok <==> View().flightAt && View().flight != map[]
      ensures View().flightAt ==> seqNo == View().lastSeq && Lists(items, View().flight)
      ensures !View().flightAt ==> seqNo == 0 && items == []
    {
      hide Lists, Promote;
      PromoteWhole(View());
      if !flightAt {
        if pend == map[] {
          assert View().pend == map[];
          return 0, [], false;
        }
        PromotePending();
      }
      items := ListAmounts(View().flight);
      seqNo, ok := lastSeq, |items| > 0;
      ListingEmpty(items, View().flight);
    }

    /** Clears the batch in flight once the panel has confirmed its number. */
    method Ack(seqNo: int)
      requires Valid()
      modifies this
      ensures Valid() && View() == PendingSpec.Ack(old(View()), seqNo)
      ensures old(flightAt) && seqNo == old(lastSeq) ==> View() == Buffer(old(lastSeq), map[], false, old(View()).pend)
      ensures !(old(flightAt) && seqNo == old(lastSeq)) ==> View() == old(View())
      ensures flight.Values + pend.Values <= old(flight.Values + pend.Values)
    {
      if flightAt && seqNo == lastSeq {
        flight := map[];
        flightAt := false;
        Save();
      }
    }
  }

  /** Stopping the agent after any completed operation loses nothing: the file restores the same buffer. */
  method Restart(p: PendingTraffic) returns (q: PendingTraffic)
    requires p.Valid() && p.durable
    ensures q.Valid() && q.durable && q.View() == p.View()
    ensures fresh(q) && fresh(q.flight.Values + q.pend.Values)
  {
    q := new PendingTraffic(true, p.file);
  }

  /** Gives every amount a counter object of its own. */
  method Allocate(m: Amounts) returns (cells: Cells)
    ensures Amount(cells) == m && fresh(cells.Values)
    ensures forall x, y :: x in cells && y in cells && x != y ==> cells[x] != cells[y]
  {
    cells := map[];
    var todo := m.Keys;
    while todo != {}
      invariant todo <= m.Keys && cells.Keys == m.Keys - todo && fresh(cells.Values)
      invariant forall x, y :: x in cells && y in cells && x != y ==> cells[x] != cells[y]
      invariant forall e :: e in cells ==> Bytes(cells[e].up, cells[e].down) == m[e]
    {
      var e :| e in todo;
      var p := new Pair(m[e].up, m[e].down);
      assert forall x :: x in cells ==> cells[x] in cells.Values;
      cells := cells[e := p];
      todo := todo - {e};
    }
  }
}
