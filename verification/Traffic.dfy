/**
 Byte counters, the items that travel on the wire, and sums over them. Laws are
 stated per direction, as equations between integers.
 */
module Traffic {

  datatype Direction = Up | Down

  datatype Bytes = Bytes(up: int, down: int) {
    function In(d: Direction): int {
      if d.Up? then up else down
    }

    predicate IsZero() {
      up == 0 && down == 0
    }
  }

  /** One user's traffic increment, as reported by a node. */
  datatype Item = Item(email: string, bytes: Bytes)

  /** Per-email counters; an absent email counts as zero. */
  type Amounts = map<string, Bytes>

  function Count<K>(m: map<K, Bytes>, k: K, d: Direction): int {
    if k in m then m[k].In(d) else 0
  }

  /** Adds to an entry, creating it at zero first if it is missing. */
  function AddTo<K>(m: map<K, Bytes>, k: K, b: Bytes): map<K, Bytes> {
    m[k := Bytes(Count(m, k, Up) + b.up, Count(m, k, Down) + b.down)]
  }

  lemma AddToCounts<K>(m: map<K, Bytes>, k: K, b: Bytes, x: K, d: Direction)
    ensures Count(AddTo(m, k, b), x, d) == Count(m, x, d) + if x == k then b.In(d) else 0
  {
  }

  /** What one item says about `email`. */
  function Share(it: Item, email: string, d: Direction): int {
    if it.email == email then it.bytes.In(d) else 0
  }

  /** Everything that `items` says about `email`. */
  function Reported(items: seq<Item>, email: string, d: Direction): int {
    if items == [] then 0
    else Reported(items[..|items| - 1], email, d) + Share(items[|items| - 1], email, d)
  }

  /** Folds one item into `m`; an item that carries no bytes leaves no entry. */
  function MergeOne(m: Amounts, it: Item): Amounts {
    if it.bytes.IsZero() then m else AddTo(m, it.email, it.bytes)
  }

  function Merge(m: Amounts, items: seq<Item>): Amounts {
    if items == [] then m else MergeOne(Merge(m, items[..|items| - 1]), items[|items| - 1])
  }

  lemma MergeOneAdds(m: Amounts, it: Item, email: string, d: Direction)
    ensures Count(MergeOne(m, it), email, d) == Count(m, email, d) + Share(it, email, d)
  {
  }

  /** Merging adds, per email and direction, exactly what the items report. */
  lemma {:induction false} MergeAdds(m: Amounts, items: seq<Item>, email: string, d: Direction)
    ensures Count(Merge(m, items), email, d) == Count(m, email, d) + Reported(items, email, d)
  {
    if items != [] {
      MergeAdds(m, items[..|items| - 1], email, d);
      MergeOneAdds(Merge(m, items[..|items| - 1]), items[|items| - 1], email, d);
    }
  }

  /** `items` holds every entry of `m` exactly once, in some order. */
  ghost predicate Lists(items: seq<Item>, m: Amounts) {
    && (forall i :: 0 <= i < |items| ==> items[i].email in m && m[items[i].email] == items[i].bytes)
    && (forall i, j :: 0 <= i < j < |items| ==> items[i].email != items[j].email)
    && (forall e :: e in m ==> exists i :: 0 <= i < |items| && items[i].email == e)
  }

  /** A listing reports exactly the counters it lists, whatever its order. */
  lemma ListingReports(items: seq<Item>, m: Amounts, email: string, d: Direction)
    requires Lists(items, m)
    ensures Reported(items, email, d) == Count(m, email, d)
  {
    if email in m {
      var i :| 0 <= i < |items| && items[i].email == email;
      ReportedAt(items, i, d);
    } else {
      ReportedAbsent(items, email, d);
    }
  }

  lemma {:induction false} ReportedAbsent(items: seq<Item>, email: string, d: Direction)
    requires forall i :: 0 <= i < |items| ==> items[i].email != email
    ensures Reported(items, email, d) == 0
  {
    if items != [] {
      ReportedAbsent(items[..|items| - 1], email, d);
      assert Share(items[|items| - 1], email, d) == 0;
    }
  }

  lemma {:induction false} ReportedAt(items: seq<Item>, i: nat, d: Direction)
    requires i < |items|
    requires forall a, b :: 0 <= a < b < |items| ==> items[a].email != items[b].email
    ensures Reported(items, items[i].email, d) == items[i].bytes.In(d)
  {
    var rest := items[..|items| - 1];
    if i == |items| - 1 {
      ReportedAbsent(rest, items[i].email, d);
    } else {
      ReportedAt(rest, i, d);
      assert Share(items[|items| - 1], items[i].email, d) == 0;
    }
  }

  lemma ListingEmpty(items: seq<Item>, m: Amounts)
    requires Lists(items, m)
    ensures items == [] <==> m == map[]
  {
    if items != [] {
      assert items[0].email in m;
    } else {
      assert forall e :: e !in m;
    }
  }

  lemma ListingSnoc(rest: seq<Item>, m: Amounts, e: string)
    requires e in m && Lists(rest, m - {e})
    ensures Lists(rest + [Item(e, m[e])], m)
  {
    var items := rest + [Item(e, m[e])];
    assert items[|rest|].email == e;
    forall x | x in m
      ensures exists i :: 0 <= i < |items| && items[i].email == x
    {
      if x != e {
        assert x in m - {e};
        var i :| 0 <= i < |rest| && rest[i].email == x;
        assert items[i].email == x;
      }
    }
  }

  /** Every map has a listing. */
  lemma {:induction false} ListingExists(m: Amounts) returns (items: seq<Item>)
    ensures Lists(items, m)
    decreases |m|
  {
    if m == map[] {
      items := [];
    } else {
      hide Lists;
      var e :| e in m;
      var rest := ListingExists(m - {e});
      ListingSnoc(rest, m, e);
      items := rest + [Item(e, m[e])];
    }
  }

  /** Lists a map in an arbitrary order, as ranging over it does. */
  method ListAmounts(m: Amounts) returns (items: seq<Item>)
    ensures Lists(items, m) && |items| == |m|
  {
    items := [];
    var todo := m.Keys;
    while todo != {}
      invariant todo <= m.Keys && |items| + |todo| == |m.Keys|
      invariant forall i :: 0 <= i < |items| ==>
        items[i].email in m && items[i].email !in todo && items[i].bytes == m[items[i].email]
      invariant forall i, j :: 0 <= i < j < |items| ==> items[i].email != items[j].email
      invariant forall e :: e in m && e !in todo ==> exists i :: 0 <= i < |items| && items[i].email == e
    {
      var e :| e in todo;
      ghost var was := items;
      items := items + [Item(e, m[e])];
      assert items[|was|].email == e;
      forall x | x in m && x !in todo - {e}
        ensures exists i :: 0 <= i < |items| && items[i].email == x
      {
        if x != e {
          var i :| 0 <= i < |was| && was[i].email == x;
          assert items[i].email == x;
        }
      }
      todo := todo - {e};
    }
  }

  // ---- sums over a table ----

  /** The sum of every cell of a table. */
  ghost function Sum<K>(m: map<K, Bytes>, d: Direction): int {
    if m == map[] then 0
    else
      var k :| k in m;
      m[k].In(d) + Sum(m - {k}, d)
  }

  lemma {:induction false} SumRemove<K>(m: map<K, Bytes>, k: K, d: Direction)
    requires k in m
    ensures Sum(m, d) == m[k].In(d) + Sum(m - {k}, d)
    decreases |m|
  {
    var c :| c in m && Sum(m, d) == m[c].In(d) + Sum(m - {c}, d);
    if c != k {
      SumRemove(m - {c}, k, d);
      SumRemove(m - {k}, c, d);
      assert m - {c} - {k} == m - {k} - {c};
    }
  }

  lemma SumAddTo<K>(m: map<K, Bytes>, k: K, b: Bytes, d: Direction)
    ensures Sum(AddTo(m, k, b), d) == Sum(m, d) + b.In(d)
  {
    var n := AddTo(m, k, b);
    SumRemove(n, k, d);
    assert n - {k} == m - {k};
    if k in m {
      SumRemove(m, k, d);
    } else {
      assert m - {k} == m;
    }
  }

  /** The cells whose first, respectively second, key is `k`. */
  function Row(m: map<(int, int), Bytes>, k: int): map<(int, int), Bytes> {
    map c | c in m && c.0 == k :: m[c]
  }

  function Column(m: map<(int, int), Bytes>, k: int): map<(int, int), Bytes> {
    map c | c in m && c.1 == k :: m[c]
  }

  lemma RowAddTo(m: map<(int, int), Bytes>, c: (int, int), b: Bytes, k: int, d: Direction)
    ensures Sum(Row(AddTo(m, c, b), k), d) == Sum(Row(m, k), d) + if c.0 == k then b.In(d) else 0
  {
    if c.0 == k {
      SumAddTo(Row(m, k), c, b, d);
      assert Row(AddTo(m, c, b), k) == AddTo(Row(m, k), c, b);
    } else {
      assert Row(AddTo(m, c, b), k) == Row(m, k);
    }
  }

  lemma ColumnAddTo(m: map<(int, int), Bytes>, c: (int, int), b: Bytes, k: int, d: Direction)
    ensures Sum(Column(AddTo(m, c, b), k), d) == Sum(Column(m, k), d) + if c.1 == k then b.In(d) else 0
  {
    if c.1 == k {
      SumAddTo(Column(m, k), c, b, d);
      assert Column(AddTo(m, c, b), k) == AddTo(Column(m, k), c, b);
    } else {
      assert Column(AddTo(m, c, b), k) == Column(m, k);
    }
  }
}
