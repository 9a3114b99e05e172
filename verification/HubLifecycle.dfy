/**
 The life of connections under every interleaving of registering, leaving and
 pushing (internal/panel/hub.go): the map is changed under a lock, but closing a
 leaving connection and sending on a looked-up one happen after it is released.
 */
module HubLifecycle {
  import opened Wrappers

  /** Where a connection's handler is: it registers once, later leaves, then closes. */
  datatype Stage = Opened | Registered | Leaving | Gone

  datatype Conn = Conn(node: int, stage: Stage, closes: nat)

  datatype State = State(
    current: map<int, int>,           // node -> connection
    conns: seq<Conn>,                 // every connection ever opened
    held: map<int, Option<int>>)      // pusher -> the connection it looked up

  datatype Event =
    | Open(node: int)
    | Register(c: nat)
    | Remove(c: nat)                  // the locked half of unregister
    | Close(c: nat)                   // its unlocked half
    | Lookup(pusher: int, node: int)
    | Send(pusher: int)

  const START := State(map[], [], map[])

  /** Both sides close through one `sync.Once`: only the first call closes, and `closes` counts those that do. */
  function CloseOnce(c: Conn): Conn {
    if c.closes == 0 then c.(closes := 1) else c
  }

  predicate At(s: State, c: nat, stage: Stage) {
    c < |s.conns| && s.conns[c].stage == stage
  }

  function DoRegister(s: State, c: nat): State {
    if !At(s, c, Opened) then s
    else
      var n := s.conns[c].node;
      var closed := if n in s.current && 0 <= s.current[n] < |s.conns|
        then s.conns[s.current[n] := CloseOnce(s.conns[s.current[n]])] else s.conns;
      s.(current := s.current[n := c], conns := closed[c := closed[c].(stage := Registered)])
  }

  function DoRemove(s: State, c: nat): State {
    if !At(s, c, Registered) then s
    else
      var n := s.conns[c].node;
      s.(current := if n in s.current && s.current[n] == c then s.current - {n} else s.current,
         conns := s.conns[c := s.conns[c].(stage := Leaving)])
  }

  function DoClose(s: State, c: nat): State {
    if !At(s, c, Leaving) then s
    else s.(conns := s.conns[c := CloseOnce(s.conns[c]).(stage := Gone)])
  }

  function Next(s: State, ev: Event): State {
    match ev
    case Open(node) => s.(conns := s.conns + [Conn(node, Opened, 0)])
    case Register(c) => DoRegister(s, c)
    case Remove(c) => DoRemove(s, c)
    case Close(c) => DoClose(s, c)
    case Lookup(p, node) => s.(held := s.held[p := if node in s.current then Some(s.current[node]) else None])
    case Send(p) => s.(held := s.held - {p})
  }

  /** Whether a send on the looked-up connection can reach its queue: not once it is closed. */
  predicate Reaches(s: State, p: int) {
    p in s.held && s.held[p].Some? && 0 <= s.held[p].value < |s.conns| && s.conns[s.held[p].value].closes == 0
  }

  function Run(s: State, evs: seq<Event>): State {
    if evs == [] then s else Next(Run(s, evs[..|evs| - 1]), evs[|evs| - 1])
  }

  // ---- the invariant ----

  /** A mapped connection is a registered one of that node that has never been closed. */
  predicate MappedOk(s: State, n: int)
    requires n in s.current
  {
    && 0 <= s.current[n] < |s.conns|
    && s.conns[s.current[n]] == Conn(n, Registered, 0)
  }

  /** At most one close; none before registering; one when the handler is gone or superseded. */
  predicate ConnOk(s: State, c: int)
    requires 0 <= c < |s.conns|
  {
    && s.conns[c].closes <= 1
    && (s.conns[c].stage == Opened ==> s.conns[c].closes == 0)
    && (s.conns[c].stage == Gone ==> s.conns[c].closes == 1)
    && (s.conns[c].stage == Registered && !Current(s, c) ==> s.conns[c].closes == 1)
  }

  predicate Current(s: State, c: int) {
    0 <= c < |s.conns| && s.conns[c].node in s.current && s.current[s.conns[c].node] == c
  }

  /** A looked-up connection had registered. */
  predicate HeldOk(s: State, c: int) {
    0 <= c < |s.conns| && s.conns[c].stage != Opened
  }

  ghost predicate Inv(s: State) {
    && (forall n :: n in s.current ==> MappedOk(s, n))
    && (forall c :: 0 <= c < |s.conns| ==> ConnOk(s, c))
    && (forall p :: p in s.held && s.held[p].Some? ==> HeldOk(s, s.held[p].value))
  }

  lemma RegisterKeeps(s: State, c: nat)
    requires Inv(s)
    ensures Inv(DoRegister(s, c))
  {
    var r := DoRegister(s, c);
    if At(s, c, Opened) {
      var n := s.conns[c].node;
      assert ConnOk(s, c);
      forall m | m in r.current
        ensures MappedOk(r, m)
      {
        if m != n {
          assert MappedOk(s, m);
        }
      }
      forall k | 0 <= k < |r.conns|
        ensures ConnOk(r, k)
      {
        assert ConnOk(s, k);
      }
    }
  }

  lemma RemoveKeeps(s: State, c: nat)
    requires Inv(s)
    ensures Inv(DoRemove(s, c))
  {
    var r := DoRemove(s, c);
    if At(s, c, Registered) {
      forall m | m in r.current
        ensures MappedOk(r, m)
      {
        assert MappedOk(s, m);
      }
      forall k | 0 <= k < |r.conns|
        ensures ConnOk(r, k)
      {
        assert ConnOk(s, k);
      }
    }
  }

  lemma CloseKeeps(s: State, c: nat)
    requires Inv(s)
    ensures Inv(DoClose(s, c))
  {
    var r := DoClose(s, c);
    if At(s, c, Leaving) {
      forall m | m in r.current
        ensures MappedOk(r, m)
      {
        assert MappedOk(s, m);
      }
      forall k | 0 <= k < |r.conns|
        ensures ConnOk(r, k)
      {
        assert ConnOk(s, k);
      }
    }
  }

  lemma OpenKeeps(s: State, node: int)
    requires Inv(s)
    ensures Inv(Next(s, Open(node)))
  {
    var r := Next(s, Open(node));
    forall m | m in r.current
      ensures MappedOk(r, m)
    {
      assert MappedOk(s, m);
    }
    forall k | 0 <= k < |r.conns|
      ensures ConnOk(r, k)
    {
      if k < |s.conns| {
        assert ConnOk(s, k);
      }
    }
  }

  lemma HeldKeeps(s: State, r: State)
    requires Inv(s) && r == s.(held := r.held)
    requires forall p :: p in r.held && r.held[p].Some? ==> HeldOk(s, r.held[p].value)
    ensures Inv(r)
  {
    forall m | m in r.current
      ensures MappedOk(r, m)
    {
      assert MappedOk(s, m);
    }
    forall k | 0 <= k < |r.conns|
      ensures ConnOk(r, k)
    {
      assert ConnOk(s, k);
    }
    assert forall c :: HeldOk(s, c) ==> HeldOk(r, c);
  }

  lemma NextKeeps(s: State, ev: Event)
    requires Inv(s)
    ensures Inv(Next(s, ev))
  {
    match ev
    case Open(node) => OpenKeeps(s, node);
    case Register(c) => RegisterKeeps(s, c);
    case Remove(c) => RemoveKeeps(s, c);
    case Close(c) => CloseKeeps(s, c);
    case Lookup(p, node) =>
      assert node in s.current ==> MappedOk(s, node);
      HeldKeeps(s, Next(s, ev));
    case Send(p) => HeldKeeps(s, Next(s, ev));
  }

  // ---- the theorems ----

  lemma {:induction false} InvHolds(evs: seq<Event>)
    ensures Inv(Run(START, evs))
  {
    if evs != [] {
      InvHolds(evs[..|evs| - 1]);
      NextKeeps(Run(START, evs[..|evs| - 1]), evs[|evs| - 1]);
    }
  }

  /**
   Under every interleaving: a mapped connection is filed under its own node and has
   not been closed, no connection is closed twice, and one whose handler has
   finished, or that was superseded, has been closed.
   */
  lemma LifecycleSafe(evs: seq<Event>, n: int, c: nat)
    ensures var s := Run(START, evs);
            && (n in s.current ==> 0 <= s.current[n] < |s.conns| && s.conns[s.current[n]] == Conn(n, Registered, 0))
            && (c < |s.conns| ==>
                  && s.conns[c].closes <= 1
                  && (s.conns[c].stage == Gone || (s.conns[c].stage == Registered && !Current(s, c)) ==>
                      s.conns[c].closes == 1))
  {
    InvHolds(evs);
    var s := Run(START, evs);
    assert n in s.current ==> MappedOk(s, n);
    assert c < |s.conns| ==> ConnOk(s, c);
  }

  /** Events after which the node's current connection may change: its own leaving, or a newer registration. */
  predicate Displaces(s: State, ev: Event, n: int, c: nat) {
    ev == Remove(c) || (ev.Register? && ev.c < |s.conns| && s.conns[ev.c].node == n)
  }

  ghost predicate Undisturbed(s: State, evs: seq<Event>, n: int, c: nat) {
    forall i :: 0 <= i < |evs| ==> !Displaces(Run(s, evs[..i]), evs[i], n, c)
  }

  lemma StepStays(s: State, ev: Event, n: int, c: nat)
    requires Inv(s) && n in s.current && s.current[n] == c && !Displaces(s, ev, n, c)
    ensures n in Next(s, ev).current && Next(s, ev).current[n] == c
  {
  }

  /**
   A registered connection stays its node's current one, still open, until it
   leaves by itself or a newer one registers: no late removal or close of a
   superseded connection takes its successor away.
   */
  lemma {:induction false} SuccessorStays(before: seq<Event>, evs: seq<Event>, n: int, c: nat)
    requires var s := Run(START, before);
             n in s.current && s.current[n] == c && Undisturbed(s, evs, n, c)
    ensures var t := Run(Run(START, before), evs);
            Inv(t) && n in t.current && t.current[n] == c && t.conns[c].closes == 0
  {
    var s := Run(START, before);
    InvHolds(before);
    if evs == [] {
      assert MappedOk(s, n);
    } else {
      var rest := evs[..|evs| - 1];
      forall i | 0 <= i < |rest|
        ensures !Displaces(Run(s, rest[..i]), rest[i], n, c)
      {
        assert rest[..i] == evs[..i];
      }
      SuccessorStays(before, rest, n, c);
      var t := Run(s, rest);
      StepStays(t, evs[|evs| - 1], n, c);
      NextKeeps(t, evs[|evs| - 1]);
      assert MappedOk(Next(t, evs[|evs| - 1]), n);
    }
  }

  /**
   A push that reaches a queue reaches the node's current connection or one whose
   handler is already leaving, never a superseded or finished one.
   */
  lemma PushReachesLiveOnly(evs: seq<Event>, p: int)
    ensures var s := Run(START, evs);
            Reaches(s, p) ==> Current(s, s.held[p].value) || s.conns[s.held[p].value].stage == Leaving
  {
    InvHolds(evs);
    var s := Run(START, evs);
    if Reaches(s, p) {
      assert ConnOk(s, s.held[p].value) && HeldOk(s, s.held[p].value);
    }
  }

  /**
   From any point of any run a connection can come, be used and go: registering makes
   it the node's current one and closes the one before it, a pusher that looks the node
   up then reaches it, and once its handler has left and closed it, it is mapped no
   more, has been closed exactly once and is out of every pusher's reach.
   */
  lemma ComesAndGoes(evs: seq<Event>, n: int, p: int)
    ensures var s, c := Run(START, evs), |Run(START, evs).conns|;
            var on := Next(Next(Next(s, Open(n)), Register(c)), Lookup(p, n));
            var off := Next(Next(on, Remove(c)), Close(c));
            && on.current == s.current[n := c] && on.conns[c] == Conn(n, Registered, 0)
            && Reaches(on, p) && on.held[p] == Some(c) && !Reaches(Next(on, Send(p)), p)
            && (n in s.current ==> 0 <= s.current[n] < c && on.conns[s.current[n]].closes == 1)
            && off.current == s.current - {n} && off.conns[c] == Conn(n, Gone, 1) && !Reaches(off, p)
  {
    hide Run, Inv;
    InvHolds(evs);
    var s, c := Run(START, evs), |Run(START, evs).conns|;
    MappedBelow(s, n);
    assert Next(s, Open(n)).conns == s.conns + [Conn(n, Opened, 0)];
  }

  lemma MappedBelow(s: State, n: int)
    requires Inv(s)
    ensures n in s.current ==> 0 <= s.current[n] < |s.conns| && s.conns[s.current[n]].closes == 0
  {
    assert n in s.current ==> MappedOk(s, n);
  }
}
