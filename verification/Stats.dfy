/**
 Folding Xray's flat per-user counters into per-email items
 (internal/agent/stats.go).
 */
module Stats {
  import opened Traffic
  import Text

  datatype Stat = Stat(name: string, value: int)

  const SEP := ">>>"

  function CounterName(email: string, d: Direction): string {
    Text.Join(["user", email, "traffic", if d.Up? then "uplink" else "downlink"], SEP)
  }

  predicate UserCounter(parts: seq<string>) {
    |parts| == 4 && parts[0] == "user" && parts[2] == "traffic"
  }

  /** What a counter named by `parts` adds: any fourth part other than the two directions adds nothing. */
  function Delta(parts: seq<string>, v: int): Bytes
    requires |parts| == 4
  {
    if parts[3] == "uplink" then Bytes(v, 0)
    else if parts[3] == "downlink" then Bytes(0, v)
    else Bytes(0, 0)
  }

  function FoldOne(m: Amounts, s: Stat): Amounts {
    if UserCounter(Text.Split(s.name, SEP)) && s.value != 0
    then AddTo(m, Text.Split(s.name, SEP)[1], Delta(Text.Split(s.name, SEP), s.value))
    else m
  }

  function Fold(stats: seq<Stat>): Amounts {
    if stats == [] then map[] else FoldOne(Fold(stats[..|stats| - 1]), stats[|stats| - 1])
  }

  function ValueOne(s: Stat, name: string): int {
    if s.name == name then s.value else 0
  }

  /** The sum of the samples of one counter. */
  function Sampled(stats: seq<Stat>, name: string): int {
    if stats == [] then 0 else Sampled(stats[..|stats| - 1], name) + ValueOne(stats[|stats| - 1], name)
  }

  /** A name splits into the four expected parts exactly when it is that user's counter in that direction. */
  lemma NameSplits(name: string, email: string, d: Direction)
    requires '>' !in email
    ensures name == CounterName(email, d) <==>
            Text.Split(name, SEP) == ["user", email, "traffic", if d.Up? then "uplink" else "downlink"]
  {
    var parts := ["user", email, "traffic", if d.Up? then "uplink" else "downlink"];
    assert Text.Separable(parts, SEP);
    Text.SplitJoin(parts, SEP);
    Text.JoinSplit(name, SEP);
  }

  /** The name Xray gives a counter, written out. */
  lemma NameIs(email: string, d: Direction)
    ensures CounterName(email, d) == "user>>>" + email + ">>>traffic>>>" + if d.Up? then "uplink" else "downlink"
  {
    var last := if d.Up? then "uplink" else "downlink";
    assert Text.Join([last], SEP) == last;
    assert Text.Join(["traffic", last], SEP) == "traffic" + SEP + last;
    assert Text.Join([email, "traffic", last], SEP) == email + SEP + ("traffic" + SEP + last);
    assert ["user", email, "traffic", last][1..] == [email, "traffic", last];
  }

  lemma FoldOneAdds(m: Amounts, s: Stat, email: string, d: Direction)
    requires '>' !in email
    ensures Count(FoldOne(m, s), email, d) == Count(m, email, d) + ValueOne(s, CounterName(email, d))
  {
    NameSplits(s.name, email, d);
    var parts := Text.Split(s.name, SEP);
    if UserCounter(parts) && s.value != 0 {
      AddToCounts(m, parts[1], Delta(parts, s.value), email, d);
      assert parts == ["user", parts[1], "traffic", parts[3]];
    }
  }

  /**
   Each user's uplink and downlink totals are the sums of exactly that user's
   counters, for every email that cannot contain the key separator.
   */
  lemma {:induction false} FoldCounts(stats: seq<Stat>, email: string, d: Direction)
    requires '>' !in email
    ensures Count(Fold(stats), email, d) ==
            Sampled(stats, "user>>>" + email + ">>>traffic>>>" + if d.Up? then "uplink" else "downlink")
  {
    NameIs(email, d);
    if stats != [] {
      FoldCounts(stats[..|stats| - 1], email, d);
      FoldOneAdds(Fold(stats[..|stats| - 1]), stats[|stats| - 1], email, d);
    }
  }

  method StatsToItems(stats: seq<Stat>) returns (items: seq<Item>)
    ensures Lists(items, Fold(stats))
    ensures forall email, d :: '>' !in email ==>
              Reported(items, email, d) ==
              Sampled(stats, "user>>>" + email + ">>>traffic>>>" + if d.Up? then "uplink" else "downlink")
  {
    var byEmail: Amounts := map[];
    for i := 0 to |stats|
      invariant byEmail == Fold(stats[..i])
    {
      assert stats[..i + 1][..i] == stats[..i];
      var parts := Text.Split(stats[i].name, SEP);
      if |parts| != 4 || parts[0] != "user" || parts[2] != "traffic" {
        continue;
      }
      var v := stats[i].value;
      if v == 0 {
        continue;
      }
      var a := if parts[1] in byEmail then byEmail[parts[1]] else Bytes(0, 0);
      if parts[3] == "uplink" {
        a := a.(up := a.up + v);
      } else if parts[3] == "downlink" {
        a := a.(down := a.down + v);
      }
      byEmail := byEmail[parts[1] := a];
    }
    assert stats[..|stats|] == stats;
    items := ListAmounts(byEmail);
    forall email, d | '>' !in email
      ensures Reported(items, email, d) ==
              Sampled(stats, "user>>>" + email + ">>>traffic>>>" + if d.Up? then "uplink" else "downlink")
    {
      ListingReports(items, byEmail, email, d);
      FoldCounts(stats, email, d);
    }
  }
}
