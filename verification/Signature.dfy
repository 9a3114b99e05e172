/**
 The signature of a node's active user set (internal/panel/traffic.go). The
 signature is modelled by the text that is hashed; SHA-256 is taken as injective.
 */
module Signature {
  import opened StoreSpec
  import Text

  // ---- lexicographic order ----

  predicate Le(a: string, b: string) {
    a == "" || (b != "" && (a[0] < b[0] || (a[0] == b[0] && Le(a[1..], b[1..]))))
  }

  lemma {:induction false} LeTotal(a: string, b: string)
    ensures Le(a, b) || Le(b, a)
  {
    if a != "" && b != "" && a[0] == b[0] {
      LeTotal(a[1..], b[1..]);
    }
  }

  lemma {:induction false} LeAntisymmetric(a: string, b: string)
    requires Le(a, b) && Le(b, a)
    ensures a == b
  {
    if a != "" && b != "" {
      LeAntisymmetric(a[1..], b[1..]);
      assert a == [a[0]] + a[1..] && b == [b[0]] + b[1..];
    }
  }

  lemma {:induction false} LeTransitive(a: string, b: string, c: string)
    requires Le(a, b) && Le(b, c)
    ensures Le(a, c)
  {
    if a != "" && a[0] == b[0] && b[0] == c[0] {
      LeTransitive(a[1..], b[1..], c[1..]);
    }
  }

  predicate Sorted(s: seq<string>) {
    forall i, j :: 0 <= i < j < |s| ==> Le(s[i], s[j])
  }

  function Insert(x: string, s: seq<string>): seq<string> {
    if s == [] then [x]
    else if Le(x, s[0]) then [x] + s
    else [s[0]] + Insert(x, s[1..])
  }

  /** The sorted list of the same lines. */
  function Sort(s: seq<string>): seq<string> {
    if s == [] then [] else Insert(s[0], Sort(s[1..]))
  }

  lemma {:induction false} InsertSorts(x: string, s: seq<string>)
    requires Sorted(s)
    ensures Sorted(Insert(x, s)) && multiset(Insert(x, s)) == multiset{x} + multiset(s)
  {
    if s == [] {
    } else if Le(x, s[0]) {
      forall j | 0 < j <= |s|
        ensures Le(x, ([x] + s)[j])
      {
        if j > 1 {
          LeTransitive(x, s[0], s[j - 1]);
        }
      }
    } else {
      assert s == [s[0]] + s[1..];
      InsertSorts(x, s[1..]);
      LeTotal(x, s[0]);
      HeadFirst(s[0], Insert(x, s[1..]), multiset{x} + multiset(s[1..]));
    }
  }

  /** A line below everything in a sorted list may go in front of it. */
  lemma HeadFirst(h: string, t: seq<string>, m: multiset<string>)
    requires Sorted(t) && multiset(t) == m && forall y :: y in m ==> Le(h, y)
    ensures Sorted([h] + t)
  {
  }

  lemma {:induction false} SortSorts(s: seq<string>)
    ensures Sorted(Sort(s)) && multiset(Sort(s)) == multiset(s)
  {
    if s != [] {
      assert s == [s[0]] + s[1..];
      SortSorts(s[1..]);
      InsertSorts(s[0], Sort(s[1..]));
    }
  }

  lemma SameHead(a: seq<string>, b: seq<string>)
    requires Sorted(a) && Sorted(b) && multiset(a) == multiset(b) && a != []
    ensures b != [] && a[0] == b[0]
  {
    hide Le;
    assert a[0] in multiset(b);
    var j :| 0 <= j < |b| && b[j] == a[0];
    assert b[0] in multiset(a);
    var i :| 0 <= i < |a| && a[i] == b[0];
    if a[0] != b[0] {
      assert Le(b[0], b[j]) && Le(a[0], a[i]);
      LeAntisymmetric(a[0], b[0]);
    }
  }

  /** Sorting is canonical: a multiset has one sorted list. */
  lemma {:induction false} SortedUnique(a: seq<string>, b: seq<string>)
    requires Sorted(a) && Sorted(b) && multiset(a) == multiset(b)
    ensures a == b
  {
    hide Le;
    if a == [] {
      assert |multiset(b)| == 0;
    } else {
      SameHead(a, b);
      assert a == [a[0]] + a[1..] && b == [b[0]] + b[1..];
      assert multiset(a[1..]) == multiset(a) - multiset{a[0]};
      assert multiset(b[1..]) == multiset(b) - multiset{b[0]};
      SortedUnique(a[1..], b[1..]);
    }
  }

  // ---- the signature ----

  /** What a node must serve for one user. */
  datatype Client = Client(email: string, uuid: string)

  /** The active users of a list, in its order. */
  function ActiveClients(users: seq<User>, now: int): seq<Client> {
    if users == [] then []
    else ActiveClients(users[..|users| - 1], now) + ActiveClient(users[|users| - 1], now)
  }

  function ActiveClient(u: User, now: int): seq<Client> {
    if u.Active(now) then [Client(u.username, u.uuid)] else []
  }

  function Line(c: Client): string {
    c.email + ":" + c.uuid
  }

  function Lines(cs: seq<Client>): seq<string> {
    if cs == [] then [] else [Line(cs[0])] + Lines(cs[1..])
  }

  lemma {:induction false} LinesConcat(a: seq<Client>, b: seq<Client>)
    ensures Lines(a + b) == Lines(a) + Lines(b)
  {
    if a == [] {
      assert a + b == b;
    } else {
      assert (a + b)[1..] == a[1..] + b;
      LinesConcat(a[1..], b);
    }
  }

  /** The text that is hashed: the sorted lines, printed as a list. */
  function PreHash(cs: seq<Client>): string {
    "[" + Text.Join(Sort(Lines(cs)), " ") + "]"
  }

  function ActiveSignature(users: seq<User>, now: int): string {
    PreHash(ActiveClients(users, now))
  }

  /** Collects the lines of the active users, then sorts and prints them. */
  method ComputeSignature(users: seq<User>, now: int) returns (sig: string)
    ensures sig == ActiveSignature(users, now)
  {
    var lines: seq<string> := [];
    for i := 0 to |users|
      invariant lines == Lines(ActiveClients(users[..i], now))
    {
      assert users[..i + 1][..i] == users[..i];
      LinesConcat(ActiveClients(users[..i], now), ActiveClient(users[i], now));
      if users[i].Active(now) {
        lines := lines + [users[i].username + ":" + users[i].uuid];
      }
    }
    assert users[..|users|] == users;
    sig := "[" + Text.Join(Sort(lines), " ") + "]";
  }

  /** The alphabets that usernames and identifiers are drawn from, as far as the signature needs. */
  predicate Printable(c: Client) {
    && ' ' !in c.email && ':' !in c.email
    && ' ' !in c.uuid && ':' !in c.uuid
  }

  predicate AllPrintable(cs: seq<Client>) {
    forall c :: c in cs ==> Printable(c)
  }

  lemma LineParses(c: Client)
    requires Printable(c)
    ensures Text.Split(Line(c), ":") == [c.email, c.uuid] && ' ' !in Line(c) && Line(c) != ""
  {
    Text.SplitJoin([c.email, c.uuid], ":");
    assert Text.Join([c.email, c.uuid], ":") == c.email + ":" + c.uuid;
  }

  lemma {:induction false} LinesHold(cs: seq<Client>)
    requires AllPrintable(cs)
    ensures |Lines(cs)| == |cs| && forall l :: l in Lines(cs) ==> ' ' !in l && l != ""
  {
    if cs != [] {
      assert cs[0] in cs;
      LineParses(cs[0]);
      LinesHold(cs[1..]);
    }
  }

  /** A line occurs as often as the client it parses to. */
  lemma {:induction false} LineCount(cs: seq<Client>, c: Client)
    requires AllPrintable(cs) && Printable(c)
    ensures multiset(Lines(cs))[Line(c)] == multiset(cs)[c]
  {
    if cs != [] {
      assert cs[0] in cs;
      assert cs == [cs[0]] + cs[1..];
      LineParses(cs[0]);
      LineParses(c);
      LineCount(cs[1..], c);
    }
  }

  lemma {:induction false} LineFrom(cs: seq<Client>, l: string)
    requires l in Lines(cs)
    ensures exists c :: c in cs && Line(c) == l
  {
    if l == Line(cs[0]) {
      assert cs[0] in cs;
    } else {
      LineFrom(cs[1..], l);
    }
  }

  /** Two lists of clients give the same lines, with multiplicity, if and only if they hold the same clients. */
  lemma LinesFaithful(a: seq<Client>, b: seq<Client>)
    requires AllPrintable(a) && AllPrintable(b)
    ensures multiset(Lines(a)) == multiset(Lines(b)) <==> multiset(a) == multiset(b)
  {
    if multiset(Lines(a)) == multiset(Lines(b)) {
      forall c
        ensures multiset(a)[c] == multiset(b)[c]
      {
        if c in a || c in b {
          LineCount(a, c);
          LineCount(b, c);
        }
      }
    }
    if multiset(a) == multiset(b) {
      forall l
        ensures multiset(Lines(a))[l] == multiset(Lines(b))[l]
      {
        LineTransfers(a, b, l);
      }
    }
  }

  lemma LineTransfers(a: seq<Client>, b: seq<Client>, l: string)
    requires AllPrintable(a) && AllPrintable(b) && multiset(a) == multiset(b)
    ensures multiset(Lines(a))[l] == multiset(Lines(b))[l]
  {
    if l in Lines(a) {
      LineFrom(a, l);
      var c :| c in a && Line(c) == l;
      LineCount(a, c);
      LineCount(b, c);
    } else if l in Lines(b) {
      LineFrom(b, l);
      var c :| c in b && Line(c) == l;
      LineCount(a, c);
      LineCount(b, c);
    }
  }

  lemma JoinNonEmpty(lines: seq<string>)
    requires lines != [] && lines[0] != ""
    ensures Text.Join(lines, " ") != ""
  {
  }

  lemma PrintedInjective(a: seq<string>, b: seq<string>)
    requires forall l :: l in a || l in b ==> ' ' !in l && l != ""
    requires "[" + Text.Join(a, " ") + "]" == "[" + Text.Join(b, " ") + "]"
    ensures a == b
  {
    var x, y := Text.Join(a, " "), Text.Join(b, " ");
    assert ("[" + x + "]")[1..|x| + 1] == x;
    assert ("[" + y + "]")[1..|y| + 1] == y;
    if a != [] && b != [] {
      Text.JoinInjective(a, b, " ");
    } else if a != [] {
      assert a[0] in a;
      JoinNonEmpty(a);
    } else if b != [] {
      assert b[0] in b;
      JoinNonEmpty(b);
    }
  }

  /**
   The signature is canonical: equal exactly when the two lists hold the same
   active (username, uuid) pairs, whatever order they come in.
   */
  lemma SignatureCanonical(a: seq<Client>, b: seq<Client>)
    requires AllPrintable(a) && AllPrintable(b)
    ensures PreHash(a) == PreHash(b) <==> multiset(a) == multiset(b)
  {
    SortSorts(Lines(a));
    SortSorts(Lines(b));
    LinesFaithful(a, b);
    if multiset(a) == multiset(b) {
      SortedUnique(Sort(Lines(a)), Sort(Lines(b)));
    }
    if PreHash(a) == PreHash(b) {
      LinesHold(a);
      LinesHold(b);
      forall l | l in Sort(Lines(a)) || l in Sort(Lines(b))
        ensures ' ' !in l && l != ""
      {
        assert l in multiset(Sort(Lines(a))) || l in multiset(Sort(Lines(b)));
      }
      PrintedInjective(Sort(Lines(a)), Sort(Lines(b)));
    }
  }

  ghost predicate Distinct(cs: seq<Client>) {
    forall i, j :: 0 <= i < j < |cs| ==> cs[i].email != cs[j].email
  }

  lemma {:induction false} DistinctOnce(cs: seq<Client>, c: Client)
    requires Distinct(cs)
    ensures multiset(cs)[c] == if c in cs then 1 else 0
  {
    if cs != [] {
      assert cs == [cs[0]] + cs[1..];
      assert cs[0] !in cs[1..];
      DistinctOnce(cs[1..], c);
    }
  }

  /** For lists with unique usernames, as the users table gives them, the signature identifies the set. */
  lemma SignatureIdentifiesSet(a: seq<Client>, b: seq<Client>)
    requires AllPrintable(a) && AllPrintable(b) && Distinct(a) && Distinct(b)
    ensures PreHash(a) == PreHash(b) <==> forall c :: c in a <==> c in b
  {
    SignatureCanonical(a, b);
    if multiset(a) == multiset(b) {
      forall c
        ensures c in a <==> c in b
      {
        assert c in multiset(a) <==> c in multiset(b);
      }
    }
    if forall c :: c in a <==> c in b {
      forall c
        ensures multiset(a)[c] == multiset(b)[c]
      {
        DistinctOnce(a, c);
        DistinctOnce(b, c);
      }
    }
  }

  // ---- the alphabets ----

  predicate NameChar(c: char) {
    'a' <= c <= 'z' || 'A' <= c <= 'Z' || '0' <= c <= '9' || c in {'.', '_', '-'}
  }

  /** The panel's username rule. */
  predicate ValidUsername(s: string) {
    1 <= |s| <= 64 && forall c :: c in s ==> NameChar(c)
  }

  /** Hexadecimal digits in dash-separated groups. */
  predicate UuidText(s: string) {
    forall c :: c in s ==> 'a' <= c <= 'f' || '0' <= c <= '9' || c == '-'
  }

  lemma ValidIsPrintable(c: Client)
    requires ValidUsername(c.email) && UuidText(c.uuid)
    ensures Printable(c) && c.email != "" && '>' !in c.email && '|' !in c.email
  {
  }
}
