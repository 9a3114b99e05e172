/**
 Restart-free configuration updates on a node, as a step system: the shared
 configuration file, the running Xray, the agent's in-memory baseline and its
 durable copy (internal/agent/xray.go, live_grpc.go, baseline.go). The agent may
 crash and Xray may reload the file by itself between any two steps.

 A file's SHA-256 is taken as injective, so a recorded hash is modelled by the
 document it was computed from.
 */
module ApplyProtocol {
  import opened Wrappers
  import opened Json
  import opened NodeConf
  import opened ClientSplit

  datatype File = Missing | Garbage | Doc(doc: Json)

  datatype Xray = Stopped | Running(skeleton: Json, clients: Clients)

  /** What Xray runs after loading a file. */
  function Load(f: File): Xray {
    match f
    case Doc(doc) =>
      if HasInbounds(doc) then Running(Parse(doc).value.skeleton, Parse(doc).value.clients) else Running(doc, map[])
    case _ => Stopped
  }

  // ---- live edits ----

  function Cell(m: Clients, tag: string, email: string): Option<string> {
    if tag in m && email in m[tag] then Some(m[tag][email]) else None
  }

  /** Adding a user that is present, or to an absent inbound, is an error. */
  function AddUser(x: Xray, tag: string, email: string, id: string): Option<Xray> {
    if x.Running? && tag in x.clients && email !in x.clients[tag]
    then Some(x.(clients := x.clients[tag := x.clients[tag][email := id]]))
    else None
  }

  /** Removing a user that is absent is an error. */
  function RemoveUser(x: Xray, tag: string, email: string): Option<Xray> {
    if x.Running? && tag in x.clients && email in x.clients[tag]
    then Some(x.(clients := x.clients[tag := x.clients[tag] - {email}]))
    else None
  }

  /** The (tag, email) pairs on which two client sets differ. */
  function Touched(a: Clients, b: Clients): set<(string, string)> {
    set t, e | t in {TAG_TLS, TAG_REALITY} && e in Emails(a, t) + Emails(b, t) && Cell(a, t, e) != Cell(b, t, e) ::
      (t, e)
  }

  function Emails(m: Clients, tag: string): set<string> {
    if tag in m then m[tag].Keys else {}
  }

  // ---- states and events ----

  datatype Baseline = Unknown | Known(doc: Json, parsed: Parsed)

  datatype Phase =
    | Down                                     // the agent is not running
    | Idle
    | Wrote(doc: Json)                         // the new file is in place
    | Editing(doc: Json, todo: set<(string, string)>, half: Option<(string, string)>)
    | Restarting(doc: Json)
    | Restarted(doc: Json)

  datatype State = State(file: File, xray: Xray, mem: Baseline, disk: Baseline, phase: Phase)

  datatype Event =
    | Begin(doc: Json)
    | TornWrite
    | TryLive
    | Edit(tag: string, email: string)
    | GrpcFails
    | FinishLive
    | DockerRestart
    | DockerFails
    | Record
    | Crash
    | Boot
    | XrayReload

  function Update(doc: Json): Baseline
    requires HasInbounds(doc)
  {
    Known(doc, Parse(doc).value)
  }

  /** Live if the baseline is known and only users changed; otherwise a restart. */
  function DoTryLive(s: State): State {
    if !s.phase.Wrote? then s
    else if HasInbounds(s.phase.doc) && s.mem.Known? && s.mem.parsed.skeleton == Parse(s.phase.doc).value.skeleton then
      s.(phase := Editing(s.phase.doc, Touched(s.mem.parsed.clients, Parse(s.phase.doc).value.clients), None))
    else s.(phase := Restarting(s.phase.doc))
  }

  /** The outcome of one gRPC call: on error the agent falls back to a restart. */
  function AfterCall(s: State, x: Option<Xray>, next: Phase): State {
    match x
    case None => if s.phase.Editing? then s.(phase := Restarting(s.phase.doc)) else s
    case Some(y) => s.(xray := y, phase := next)
  }

  /**
   One call of the delta, on any remaining pair: so every iteration order is
   covered. A changed uuid is removed first and re-added by the next call.
   */
  function DoEdit(s: State, t: string, e: string): State {
    if !s.phase.Editing? || !HasInbounds(s.phase.doc) || !s.mem.Known? then s
    else
      var goal := Parse(s.phase.doc).value.clients;
      if s.phase.half.Some? then
        var h := s.phase.half.value;
        if Cell(goal, h.0, h.1).None? then s
        else AfterCall(s, AddUser(s.xray, h.0, h.1, Cell(goal, h.0, h.1).value), s.phase.(half := None))
      else if (t, e) !in s.phase.todo then s
      else if Cell(goal, t, e).None? then
        AfterCall(s, RemoveUser(s.xray, t, e), s.phase.(todo := s.phase.todo - {(t, e)}))
      else if Cell(s.mem.parsed.clients, t, e).Some? then
        AfterCall(s, RemoveUser(s.xray, t, e), s.phase.(todo := s.phase.todo - {(t, e)}, half := Some((t, e))))
      else
        AfterCall(s, AddUser(s.xray, t, e, Cell(goal, t, e).value), s.phase.(todo := s.phase.todo - {(t, e)}))
  }

  function DoFinish(s: State): State {
    if s.phase.Editing? && s.phase.todo == {} && s.phase.half.None? && HasInbounds(s.phase.doc)
    then s.(mem := Update(s.phase.doc), disk := Update(s.phase.doc), phase := Idle)
    else s
  }

  /** After a restart the baseline is replaced, unless the document could not be split. */
  function DoRecord(s: State): State {
    if !s.phase.Restarted? then s
    else if HasInbounds(s.phase.doc) then s.(mem := Update(s.phase.doc), disk := Update(s.phase.doc), phase := Idle)
    else s.(phase := Idle)
  }

  /** A restarted agent trusts the durable baseline only if its hash matches the file. */
  function DoBoot(s: State): State {
    if !s.phase.Down? then s
    else if s.disk.Known? && s.file == Doc(s.disk.doc) then s.(mem := s.disk, phase := Idle)
    else s.(mem := Unknown, phase := Idle)
  }

  function DoCrash(s: State): State {
    s.(mem := Unknown, phase := Down)
  }

  function DoBegin(s: State, doc: Json): State {
    if s.phase.Idle? then s.(file := Doc(doc), phase := Wrote(doc)) else s
  }

  function Next(s: State, ev: Event): State {
    match ev
    case Begin(doc) => DoBegin(s, doc)
    case TornWrite => if s.phase.Idle? then DoCrash(s.(file := Garbage)) else s
    case TryLive => DoTryLive(s)
    case Edit(t, e) => DoEdit(s, t, e)
    case GrpcFails => if s.phase.Editing? then s.(phase := Restarting(s.phase.doc)) else s
    case FinishLive => DoFinish(s)
    case DockerRestart => if s.phase.Restarting? then s.(xray := Load(s.file), phase := Restarted(s.phase.doc)) else s
    case DockerFails => if s.phase.Restarting? then s.(phase := Idle) else s
    case Record => DoRecord(s)
    case Crash => DoCrash(s)
    case Boot => DoBoot(s)
    case XrayReload => s.(xray := Load(s.file))
  }

  function Run(s: State, evs: seq<Event>): State {
    if evs == [] then s else Next(Run(s, evs[..|evs| - 1]), evs[|evs| - 1])
  }

  /** No agent has ever run here: the file and Xray are as the installation left them. */
  function Start(file: File, xray: Xray): State {
    State(file, xray, Unknown, Unknown, Down)
  }

  // ---- what must hold ----

  /** The baseline the agent would diff against describes the running Xray. */
  predicate Trusted(s: State) {
    s.mem.Known? ==> s.xray == Load(Doc(s.mem.doc))
  }

  predicate Faithful(b: Baseline) {
    b.Known? ==> HasInbounds(b.doc) && b.parsed == Parse(b.doc).value
  }

  /** If the agent died now, a baseline its successor accepts would describe Xray. */
  predicate CrashSafe(s: State) {
    s.disk.Known? && s.file == Doc(s.disk.doc) ==> s.xray == Load(s.file)
  }

  /** Each pair is still as it was or already as it will be; the half-done one may be absent. */
  predicate PairOk(x: Clients, base: Clients, goal: Clients, todo: set<(string, string)>,
                   half: Option<(string, string)>, t: string, e: string) {
    if half == Some((t, e)) then
      (t, e) !in todo && Cell(goal, t, e).Some? && (Cell(x, t, e).None? || Cell(x, t, e) == Cell(goal, t, e))
    else if (t, e) in todo then
      Cell(base, t, e) != Cell(goal, t, e) && (Cell(x, t, e) == Cell(base, t, e) || Cell(x, t, e) == Cell(goal, t, e))
    else Cell(x, t, e) == Cell(goal, t, e)
  }

  ghost predicate EditingOk(s: State)
    requires s.phase.Editing?
  {
    var d := s.phase.doc;
    && HasInbounds(d) && s.file == Doc(d)
    && s.mem.Known? && s.disk == s.mem
    && s.xray.Running? && s.xray.skeleton == Parse(d).value.skeleton
    && s.xray.clients.Keys == Parse(d).value.clients.Keys
    && s.mem.parsed.skeleton == Parse(d).value.skeleton
    && (s.mem.doc == d ==> s.phase.todo == {} && s.phase.half.None?)
    && (s.phase.half.Some? ==> Cell(s.mem.parsed.clients, s.phase.half.value.0, s.phase.half.value.1).Some?)
    && forall t, e ::
         PairOk(s.xray.clients, s.mem.parsed.clients, Parse(d).value.clients, s.phase.todo, s.phase.half, t, e)
  }

  ghost predicate PhaseOk(s: State) {
    match s.phase
    case Down => s.mem.Unknown?
    case Idle =>
      if s.mem.Known? then s.disk == s.mem && s.file == Doc(s.mem.doc) && s.xray == Load(s.file)
      else s.disk.Known? ==> s.file != Doc(s.disk.doc)
    case Wrote(d) =>
      && HasInbounds(d) && s.file == Doc(d)
      && (s.mem.Known? ==> s.disk == s.mem && (s.xray == Load(Doc(s.mem.doc)) || s.xray == Load(s.file)))
    case Editing(d, _, _) => EditingOk(s)
    case Restarting(d) => HasInbounds(d) && s.file == Doc(d)
    case Restarted(d) => HasInbounds(d) && s.file == Doc(d) && s.xray == Load(s.file)
  }

  ghost predicate Inv(s: State) {
    Faithful(s.mem) && Faithful(s.disk) && CrashSafe(s) && PhaseOk(s)
  }

  /**
   When an apply may begin: the document can be split, and it is not the document
   of a durable baseline that the agent itself does not currently trust.
   */
  predicate Guarded(s: State, doc: Json) {
    HasInbounds(doc) && (s.mem.Known? || s.disk.Unknown? || s.disk.doc != doc)
  }

  predicate Legal(s: State, ev: Event) {
    (ev.Begin? && s.phase.Idle? ==> Guarded(s, ev.doc)) && !ev.DockerFails?
  }

  ghost predicate LegalRun(file: File, xray: Xray, evs: seq<Event>) {
    forall i :: 0 <= i < |evs| ==> Legal(Run(Start(file, xray), evs[..i]), evs[i])
  }

  // ---- the live edit ----

  lemma LoadParsed(doc: Json)
    requires HasInbounds(doc)
    ensures Load(Doc(doc)) == Running(Parse(doc).value.skeleton, Parse(doc).value.clients)
  {
  }

  lemma {:induction false} OnlyManagedTags(ibs: seq<Json>, tag: string)
    ensures tag in ClientMaps(ibs) ==> tag == TAG_TLS || tag == TAG_REALITY
  {
    if ibs != [] {
      OnlyManagedTags(ibs[..|ibs| - 1], tag);
    }
  }

  lemma TouchedExact(a: Json, b: Json, t: string, e: string)
    requires HasInbounds(a) && HasInbounds(b)
    ensures var x, y := Parse(a).value.clients, Parse(b).value.clients;
            (t, e) in Touched(x, y) <==> Cell(x, t, e) != Cell(y, t, e)
  {
    OnlyManagedTags(InboundsOf(a), t);
    OnlyManagedTags(InboundsOf(b), t);
  }

  /** Maps with the same tags and the same cells are the same. */
  lemma CellsDecide(x: Clients, y: Clients)
    requires x.Keys == y.Keys
    requires forall t, e :: Cell(x, t, e) == Cell(y, t, e)
    ensures x == y
  {
    forall t | t in x
      ensures x[t] == y[t]
    {
      forall e
        ensures e in x[t] <==> e in y[t]
        ensures e in x[t] ==> x[t][e] == y[t][e]
      {
        assert Cell(x, t, e) == Cell(y, t, e);
      }
    }
  }

  lemma TryLiveKeeps(s: State)
    requires Inv(s) && s.phase.Wrote?
    ensures Inv(DoTryLive(s))
  {
    var d := s.phase.doc;
    var r := DoTryLive(s);
    if r.phase.Editing? {
      var a := s.mem.doc;
      LoadParsed(a);
      LoadParsed(d);
      SkeletonKeepsTags(a, d);
      var base, goal := s.mem.parsed.clients, Parse(d).value.clients;
      forall t, e
        ensures PairOk(r.xray.clients, base, goal, r.phase.todo, r.phase.half, t, e)
      {
        TouchedExact(a, d, t, e);
      }
      if a == d {
        assert Touched(base, goal) == {};
      }
    }
  }

  lemma AddCells(x: Xray, t: string, e: string, id: string)
    requires AddUser(x, t, e, id).Some?
    ensures var y := AddUser(x, t, e, id).value;
            && y.Running? && y.skeleton == x.skeleton && y.clients.Keys == x.clients.Keys
            && Cell(x.clients, t, e).None?
            && forall u, f :: Cell(y.clients, u, f) == if (u, f) == (t, e) then Some(id) else Cell(x.clients, u, f)
  {
  }

  lemma RemoveCells(x: Xray, t: string, e: string)
    requires RemoveUser(x, t, e).Some?
    ensures var y := RemoveUser(x, t, e).value;
            && y.Running? && y.skeleton == x.skeleton && y.clients.Keys == x.clients.Keys
            && Cell(x.clients, t, e).Some?
            && forall u, f :: Cell(y.clients, u, f) == if (u, f) == (t, e) then None else Cell(x.clients, u, f)
  {
  }

  /** Falling back to a restart is always safe: the file already holds the new document. */
  lemma FallbackKeeps(s: State)
    requires Inv(s) && s.phase.Editing?
    ensures Inv(s.(phase := Restarting(s.phase.doc)))
  {
  }

  lemma EditKeeps(s: State, t: string, e: string)
    requires Inv(s) && s.phase.Editing?
    ensures Inv(DoEdit(s, t, e))
  {
    var r := DoEdit(s, t, e);
    var goal := Parse(s.phase.doc).value.clients;
    if r == s {
    } else if r.phase.Restarting? {
      FallbackKeeps(s);
    } else if s.phase.half.Some? {
      var h := s.phase.half.value;
      AddCells(s.xray, h.0, h.1, Cell(goal, h.0, h.1).value);
      assert PairOk(s.xray.clients, s.mem.parsed.clients, goal, s.phase.todo, s.phase.half, h.0, h.1);
      assert s.phase.todo - {(h.0, h.1)} == s.phase.todo;
      PairsAfter(s, r, h.0, h.1);
    } else {
      if Cell(goal, t, e).Some? && Cell(s.mem.parsed.clients, t, e).None? {
        AddCells(s.xray, t, e, Cell(goal, t, e).value);
      } else {
        RemoveCells(s.xray, t, e);
      }
      PairsAfter(s, r, t, e);
    }
  }

  /** A successful call leaves every other pair as it was and moves its own pair towards the goal. */
  lemma PairsAfter(s: State, r: State, t: string, e: string)
    requires Inv(s) && s.phase.Editing? && r.phase.Editing? && r.phase.doc == s.phase.doc
    requires r == s.(xray := r.xray, phase := r.phase)
    requires r.xray.Running? && r.xray.skeleton == s.xray.skeleton && r.xray.clients.Keys == s.xray.clients.Keys
    requires forall u, f :: (u, f) != (t, e) ==> Cell(r.xray.clients, u, f) == Cell(s.xray.clients, u, f)
    requires s.phase.half == Some((t, e)) || (s.phase.half.None? && (t, e) in s.phase.todo)
    requires r.phase.todo == s.phase.todo - {(t, e)} && (r.phase.half.None? || r.phase.half == Some((t, e)))
    requires r.phase.half.None? ==> Cell(r.xray.clients, t, e) == Cell(Parse(s.phase.doc).value.clients, t, e)
    requires r.phase.half.Some? ==>
               && Cell(r.xray.clients, t, e).None? && Cell(Parse(s.phase.doc).value.clients, t, e).Some?
               && Cell(s.mem.parsed.clients, t, e).Some?
    ensures Inv(r)
  {
    var base, goal := s.mem.parsed.clients, Parse(s.phase.doc).value.clients;
    forall u, f
      ensures PairOk(r.xray.clients, base, goal, r.phase.todo, r.phase.half, u, f)
    {
      assert PairOk(s.xray.clients, base, goal, s.phase.todo, s.phase.half, u, f);
    }
  }

  /** When no pair is left, Xray runs exactly the new document. */
  lemma FinishedMatches(s: State)
    requires Inv(s) && s.phase.Editing? && s.phase.todo == {} && s.phase.half.None?
    ensures s.xray == Load(s.file)
  {
    var goal := Parse(s.phase.doc).value.clients;
    LoadParsed(s.phase.doc);
    forall t, e
      ensures Cell(s.xray.clients, t, e) == Cell(goal, t, e)
    {
      assert PairOk(s.xray.clients, s.mem.parsed.clients, goal, s.phase.todo, s.phase.half, t, e);
    }
    CellsDecide(s.xray.clients, goal);
  }

  lemma ReloadKeeps(s: State)
    requires Inv(s)
    ensures Inv(s.(xray := Load(s.file)))
  {
    if s.phase.Editing? {
      var r := s.(xray := Load(s.file));
      var base, goal := s.mem.parsed.clients, Parse(s.phase.doc).value.clients;
      LoadParsed(s.phase.doc);
      forall t, e
        ensures PairOk(r.xray.clients, base, goal, r.phase.todo, r.phase.half, t, e)
      {
        assert PairOk(s.xray.clients, base, goal, s.phase.todo, s.phase.half, t, e);
      }
    }
  }

  lemma NextKeeps(s: State, ev: Event)
    requires Inv(s) && Legal(s, ev)
    ensures Inv(Next(s, ev))
  {
    match ev
    case TryLive =>
      if s.phase.Wrote? {
        TryLiveKeeps(s);
      }
    case Edit(t, e) =>
      if s.phase.Editing? {
        EditKeeps(s, t, e);
      }
    case GrpcFails =>
      if s.phase.Editing? {
        FallbackKeeps(s);
      }
    case FinishLive =>
      if s.phase.Editing? && s.phase.todo == {} && s.phase.half.None? {
        FinishedMatches(s);
      }
    case XrayReload => ReloadKeeps(s);
    case _ =>
  }

  // ---- the theorems ----

  lemma {:induction false} InvHolds(file: File, xray: Xray, evs: seq<Event>)
    requires LegalRun(file, xray, evs)
    ensures Inv(Run(Start(file, xray), evs))
  {
    if evs != [] {
      var rest := evs[..|evs| - 1];
      forall i | 0 <= i < |rest|
        ensures Legal(Run(Start(file, xray), rest[..i]), rest[i])
      {
        assert rest[..i] == evs[..i];
      }
      InvHolds(file, xray, rest);
      NextKeeps(Run(Start(file, xray), rest), evs[|evs| - 1]);
    }
  }

  /**
   From any file and any Xray, in every legal run and whatever crashes and reloads occur in between: whenever no
   apply is under way and the agent holds a baseline, by having finished an apply
   or by having accepted the durable copy, the running Xray, the baseline, its
   durable copy and the file all describe the same configuration.
   */
  lemma BaselineDescribesXray(file: File, xray: Xray, evs: seq<Event>)
    requires LegalRun(file, xray, evs)
    ensures var s := Run(Start(file, xray), evs);
            s.phase.Idle? && s.mem.Known? ==>
              && s.xray == Load(s.file) && s.file == Doc(s.mem.doc)
              && s.xray == Running(s.mem.parsed.skeleton, s.mem.parsed.clients) && s.disk == s.mem
  {
    InvHolds(file, xray, evs);
    var s := Run(Start(file, xray), evs);
    if s.phase.Idle? && s.mem.Known? {
      LoadParsed(s.mem.doc);
    }
  }

  /** An apply of `d` that has just finished, live or by a restart, leaves Xray running exactly `d`. */
  lemma AppliedIsRunning(file: File, xray: Xray, evs: seq<Event>, d: Json)
    requires LegalRun(file, xray, evs)
    requires var s := Run(Start(file, xray), evs);
             || (s.phase.Restarted? && s.phase.doc == d)
             || (s.phase.Editing? && s.phase.doc == d && s.phase.todo == {} && s.phase.half.None?)
    ensures var s := Run(Start(file, xray), evs);
            && HasInbounds(d) && s.file == Doc(d)
            && s.xray == Running(Parse(d).value.skeleton, Parse(d).value.clients)
            && (s.phase.Restarted? ==> DoRecord(s).mem == Update(d) && DoRecord(s).phase.Idle?)
            && (s.phase.Editing? ==> DoFinish(s).mem == Update(d) && DoFinish(s).phase.Idle?)
  {
    InvHolds(file, xray, evs);
    LoadParsed(d);
    var s := Run(Start(file, xray), evs);
    if s.phase.Editing? {
      FinishedMatches(s);
    }
  }

  /** Nothing but the agent's own calls has changed Xray since the edit began. */
  ghost predicate Untouched(s: State)
    requires s.phase.Editing?
  {
    && EditingOk(s)
    && (s.phase.half.Some? ==> Cell(s.xray.clients, s.phase.half.value.0, s.phase.half.value.1).None?)
    && (forall t, e :: (t, e) in s.phase.todo ==> Cell(s.xray.clients, t, e) == Cell(s.mem.parsed.clients, t, e))
    && (forall p :: p in s.phase.todo ==> p.0 in s.xray.clients)
    && (s.phase.half.Some? ==> s.phase.half.value.0 in s.xray.clients)
  }

  /**
   Delta correctness: while nothing but the agent's own calls changes Xray, no call
   of the delta ever fails, whatever order the pairs come in: it never adds a user
   that is present and never removes one that is absent.
   */
  lemma DeltaNeverErrs(s: State, t: string, e: string)
    requires Inv(s) && s.phase.Editing? && Untouched(s)
    ensures DoEdit(s, t, e).phase.Editing? && Untouched(DoEdit(s, t, e))
  {
    EditKeeps(s, t, e);
    var goal := Parse(s.phase.doc).value.clients;
    if s.phase.half.Some? {
      var h := s.phase.half.value;
      assert PairOk(s.xray.clients, s.mem.parsed.clients, goal, s.phase.todo, s.phase.half, h.0, h.1);
      AddCells(s.xray, h.0, h.1, Cell(goal, h.0, h.1).value);
    } else if (t, e) in s.phase.todo {
      assert PairOk(s.xray.clients, s.mem.parsed.clients, goal, s.phase.todo, s.phase.half, t, e);
      if Cell(goal, t, e).Some? && Cell(s.mem.parsed.clients, t, e).None? {
        AddCells(s.xray, t, e, Cell(goal, t, e).value);
      } else {
        RemoveCells(s.xray, t, e);
      }
    }
  }

  /** Every live apply starts in such a state unless Xray reloaded the file since it was written. */
  lemma DeltaStartsUntouched(s: State)
    requires Inv(s) && s.phase.Wrote? && s.mem.Known? && s.xray == Load(Doc(s.mem.doc))
    ensures var r := DoTryLive(s);
            r.phase.Editing? ==> Untouched(r)
  {
    TryLiveKeeps(s);
    LoadParsed(s.mem.doc);
    var r := DoTryLive(s);
    if r.phase.Editing? {
      SkeletonKeepsTags(s.mem.doc, s.phase.doc);
    }
  }

  // ---- a change of users needs no restart ----

  /** Calls for these pairs, one after the other; a call for a pair that is not due does nothing. */
  function Edits(t: State, es: seq<(string, string)>): State
    decreases |es|
  {
    if es == [] then t else Edits(DoEdit(t, es[0].0, es[0].1), es[1..])
  }

  /** The state of a live apply of `d` over the baseline of `s` that only the agent itself has touched. */
  ghost predicate Undisturbed(s: State, t: State, d: Json) {
    && Inv(t) && t.phase.Editing? && Untouched(t)
    && t.phase.doc == d && t.mem == s.mem && t.file == Doc(d) && HasInbounds(d)
  }

  lemma LiveBegins(s: State, d: Json)
    requires Inv(s) && s.phase.Idle? && s.mem.Known? && HasInbounds(d)
    requires s.mem.parsed.skeleton == Parse(d).value.skeleton
    ensures Undisturbed(s, Next(DoBegin(s, d), TryLive), d)
  {
    NextKeeps(s, Begin(d));
    TryLiveKeeps(DoBegin(s, d));
    DeltaStartsUntouched(DoBegin(s, d));
  }

  lemma {:induction false} EditsUndisturbed(s: State, t: State, d: Json, es: seq<(string, string)>)
    requires Undisturbed(s, t, d)
    ensures Undisturbed(s, Edits(t, es), d)
    decreases |es|
  {
    if es != [] {
      hide Inv, Untouched, DoEdit;
      DeltaNeverErrs(t, es[0].0, es[0].1);
      EditKeeps(t, es[0].0, es[0].1);
      DeltaMoves(t, es[0].0, es[0].1);
      EditsUndisturbed(s, DoEdit(t, es[0].0, es[0].1), d, es[1..]);
    }
  }

  /** What a call that succeeds does to the list of pairs. */
  lemma DeltaMoves(t: State, u: string, e: string)
    requires Inv(t) && t.phase.Editing? && DoEdit(t, u, e).phase.Editing?
    ensures var r := DoEdit(t, u, e);
            && r.mem == t.mem && r.phase.doc == t.phase.doc && r.file == t.file
            && (t.phase.half.Some? ==> r.phase.todo == t.phase.todo && r.phase.half.None?)
            && (t.phase.half.None? ==> r.phase.todo == t.phase.todo - {(u, e)})
  {
    var goal := Parse(t.phase.doc).value.clients;
    if t.phase.half.Some? {
      var h := t.phase.half.value;
      assert PairOk(t.xray.clients, t.mem.parsed.clients, goal, t.phase.todo, t.phase.half, h.0, h.1);
    }
  }

  /** However far the edit has come, calls for the pairs that are left finish it. */
  lemma {:induction false} CanFinish(s: State, t: State, d: Json) returns (es: seq<(string, string)>)
    requires Undisturbed(s, t, d)
    ensures var r := Edits(t, es);
            Undisturbed(s, r, d) && r.phase.todo == {} && r.phase.half.None?
    decreases |t.phase.todo|, if t.phase.half.Some? then 1 else 0
  {
    if t.phase.todo == {} && t.phase.half.None? {
      es := [];
    } else {
      hide Inv, Untouched, DoEdit;
      var p := if t.phase.half.Some? then t.phase.half.value else AnyOf(t.phase.todo);
      EditsUndisturbed(s, t, d, [p]);
      assert Edits(t, [p]) == Edits(DoEdit(t, p.0, p.1), []);
      DeltaMoves(t, p.0, p.1);
      assert p == (p.0, p.1);
      var rest := CanFinish(s, DoEdit(t, p.0, p.1), d);
      es := [p] + rest;
      assert es[1..] == rest;
    }
  }

  ghost function AnyOf(pairs: set<(string, string)>): (p: (string, string))
    requires pairs != {}
    ensures p in pairs
  {
    var p :| p in pairs;
    p
  }

  /**
   Restart-free updates. From a baseline held while idle, an apply that changes users
   only, with no call lost and no reload by Xray itself, never falls back to a
   restart, whatever calls are made in whatever order; it can always be finished by
   the calls that are left; and it finishes idle, recorded, with Xray running exactly
   the new document.
   */
  lemma UsersChangeLive(s: State, d: Json, es: seq<(string, string)>) returns (more: seq<(string, string)>)
    requires Inv(s) && s.phase.Idle? && s.mem.Known? && HasInbounds(d)
    requires s.mem.parsed.skeleton == Parse(d).value.skeleton
    ensures var t := Edits(Next(DoBegin(s, d), TryLive), es);
            var r := Next(Edits(t, more), FinishLive);
            && t.phase.Editing? && Next(t, DockerRestart) == t
            && r.phase.Idle? && r.mem == r.disk == Update(d) && r.file == Doc(d)
            && r.xray == Running(Parse(d).value.skeleton, Parse(d).value.clients)
  {
    LiveBegins(s, d);
    EditsUndisturbed(s, Next(DoBegin(s, d), TryLive), d, es);
    var t := Edits(Next(DoBegin(s, d), TryLive), es);
    more := CanFinish(s, t, d);
    FinishedMatches(Edits(t, more));
    LoadParsed(d);
  }

  /**
   Whatever the agent's baseline, and wherever a live attempt was given up, an apply
   whose restart succeeds ends idle with Xray running the new file, and with a
   baseline for the next live edit if the document can be split.
   */
  lemma RestartReaches(s: State, d: Json)
    requires s.phase.Idle?
    ensures var r := Next(Next(Next(Next(DoBegin(s, d), TryLive), GrpcFails), DockerRestart), Record);
            && r.phase.Idle? && r.file == Doc(d) && r.xray == Load(Doc(d))
            && if HasInbounds(d) then r.mem == r.disk == Update(d) else r.mem == s.mem && r.disk == s.disk
  {
  }

  /** A file torn by a crash is never trusted: the agent comes back without a baseline, and its next apply restarts. */
  lemma TornNotTrusted(s: State, d: Json)
    requires s.phase.Idle?
    ensures var r := Next(Next(s, TornWrite), Boot);
            && r.phase.Idle? && r.mem.Unknown? && Next(DoBegin(r, d), TryLive).phase == Restarting(d)
            && Next(r, XrayReload).xray.Stopped?
  {
  }

  // ---- the conditions are exact ----

  function CrashedApply(s: State, doc: Json): State {
    DoBoot(DoCrash(DoBegin(s, doc)))
  }

  /**
   An apply may be interrupted right after the file is written without the next
   agent ever trusting a wrong baseline, whatever Xray happens to run, if and only
   if the apply was guarded.
   */
  lemma GuardExact(s: State, doc: Json)
    requires Inv(s) && s.phase.Idle? && HasInbounds(doc)
    ensures Guarded(s, doc) <==>
            forall x: Xray :: Inv(s.(xray := x)) ==> Trusted(CrashedApply(s.(xray := x), doc))
  {
    if Guarded(s, doc) {
      forall x: Xray | Inv(s.(xray := x))
        ensures Trusted(CrashedApply(s.(xray := x), doc))
      {
        NextKeeps(s.(xray := x), Begin(doc));
      }
    } else {
      var t := s.(xray := Stopped);
      assert Inv(t);
      LoadParsed(doc);
      assert !Trusted(CrashedApply(t, doc));
    }
  }

  lemma RunStep(s: State, evs: seq<Event>, ev: Event)
    ensures Run(s, evs + [ev]) == Next(Run(s, evs), ev)
  {
  }

  /** Apply `a`; apply `b` and crash before recording it; start applying `a` again and crash. */
  function TwoCrashes(a: Json, b: Json): seq<Event> {
    [Boot, Begin(a), TryLive, DockerRestart, Record] +
    ([Begin(b), TryLive, DockerRestart, Crash, Boot] + [Begin(a), Crash, Boot])
  }

  lemma {:induction false} RunAppend(s: State, a: seq<Event>, b: seq<Event>)
    ensures Run(s, a + b) == Run(Run(s, a), b)
  {
    if b == [] {
      assert a + b == a;
    } else {
      RunAppend(s, a, b[..|b| - 1]);
      assert (a + b)[..|a + b| - 1] == a + b[..|b| - 1];
    }
  }

  lemma Run5(s: State, e0: Event, e1: Event, e2: Event, e3: Event, e4: Event)
    ensures Run(s, [e0, e1, e2, e3, e4]) == Next(Next(Next(Next(Next(s, e0), e1), e2), e3), e4)
  {
    Run3(s, e0, e1, e2);
    Run2(Run(s, [e0, e1, e2]), e3, e4);
    RunAppend(s, [e0, e1, e2], [e3, e4]);
    assert [e0, e1, e2] + [e3, e4] == [e0, e1, e2, e3, e4];
  }

  lemma Run3(s: State, e0: Event, e1: Event, e2: Event)
    ensures Run(s, [e0, e1, e2]) == Next(Next(Next(s, e0), e1), e2)
  {
    Run2(s, e0, e1);
    RunStep(s, [e0, e1], e2);
    assert [e0, e1] + [e2] == [e0, e1, e2];
  }

  lemma Run2(s: State, e0: Event, e1: Event)
    ensures Run(s, [e0, e1]) == Next(Next(s, e0), e1)
  {
    RunStep(s, [], e0);
    RunStep(s, [e0], e1);
    assert [] + [e0] == [e0] && [e0] + [e1] == [e0, e1];
  }

  /**
   The guard is needed: without it the hash check is not enough. After two
   interrupted applies that return to the recorded document, the agent trusts a
   baseline although Xray still runs the other document.
   */
  lemma TwoCrashesDeceive(file: File, xray: Xray, a: Json, b: Json)
    requires HasInbounds(a) && HasInbounds(b) && Parse(a).value.skeleton != Parse(b).value.skeleton
    ensures var s := Run(Start(file, xray), TwoCrashes(a, b));
            s.phase.Idle? && s.mem == Update(a) && s.xray == Load(Doc(b)) && !Trusted(s)
  {
    LoadParsed(a);
    LoadParsed(b);
    var p, q, r := [Boot, Begin(a), TryLive, DockerRestart, Record], [Begin(b), TryLive, DockerRestart, Crash, Boot],
      [Begin(a), Crash, Boot];
    Run5(Start(file, xray), Boot, Begin(a), TryLive, DockerRestart, Record);
    var s1 := State(Doc(a), Load(Doc(a)), Update(a), Update(a), Idle);
    assert Run(Start(file, xray), p) == s1;
    Run5(s1, Begin(b), TryLive, DockerRestart, Crash, Boot);
    var s2 := State(Doc(b), Load(Doc(b)), Unknown, Update(a), Idle);
    assert Run(s1, q) == s2;
    Run3(s2, Begin(a), Crash, Boot);
    RunAppend(s1, q, r);
    RunAppend(Start(file, xray), p, q + r);
  }

  function Restart(s: State): State {
    Next(Next(s, GrpcFails), DockerRestart)
  }

  /**
   An apply that ends in a restart, at once or after a live attempt was given up,
   leaves a right baseline if and only if the document can be split: one without an
   inbound list replaces what Xray runs but not the baseline.
   */
  lemma SplitExact(s: State, doc: Json)
    requires Inv(s) && s.phase.Idle? && s.mem.Known?
    ensures var r := DoRecord(Restart(DoTryLive(DoBegin(s, doc))));
            r.phase.Idle? && r.file == Doc(doc) && (Trusted(r) <==> HasInbounds(doc))
  {
  }

  // ---- a restart that fails ----

  /** What can happen to Xray while a live apply is attempted: a call for a pair, or a reload of the file by itself. */
  datatype Step = Call(tag: string, email: string) | Reload

  function StepOf(s: State, step: Step): State {
    match step
    case Call(t, e) => DoEdit(s, t, e)
    case Reload => Next(s, XrayReload)
  }

  function Steps(s: State, steps: seq<Step>): State {
    if steps == [] then s else StepOf(Steps(s, steps[..|steps| - 1]), steps[|steps| - 1])
  }

  function MaybeReload(s: State, reloads: bool): State {
    if reloads then Next(s, XrayReload) else s
  }

  /**
   A live attempt that is given up and a restart that fails. Xray may reload the file
   before the attempt, at any point in it, and afterwards.
   */
  function FailedApply(s: State, early: bool, steps: seq<Step>, late: bool): State {
    MaybeReload(Next(Next(Steps(DoTryLive(MaybeReload(s, early)), steps), GrpcFails), DockerFails), late)
  }

  /** The pairs a live apply of the written file has to edit. */
  function ToEdit(s: State): set<(string, string)>
    requires s.phase.Wrote? && HasInbounds(s.phase.doc) && s.mem.Known?
  {
    Touched(s.mem.parsed.clients, Parse(s.phase.doc).value.clients)
  }

  predicate Disturbs(step: Step, all: set<(string, string)>) {
    match step
    case Call(t, e) => (t, e) in all
    case Reload => true
  }

  /** No reload, and no call for a pair that differs; there are no calls at all when the skeleton changed. */
  predicate NeverDisturbed(s: State, early: bool, steps: seq<Step>, late: bool)
    requires s.phase.Wrote? && HasInbounds(s.phase.doc) && s.mem.Known?
  {
    && !early && !late
    && forall i :: 0 <= i < |steps| ==>
         if DoTryLive(s).phase.Editing? then !Disturbs(steps[i], ToEdit(s)) else steps[i].Call?
  }

  /** The cell has left the baseline: Xray holds something else for this pair. */
  predicate Gone(x: Xray, base: Clients, p: (string, string)) {
    x.Running? && Cell(x.clients, p.0, p.1) != Cell(base, p.0, p.1)
  }

  /** The attempt is for document `d` over the baseline `a`: under way, or given up. */
  predicate Attempting(t: State, a: Baseline, d: Json) {
    && HasInbounds(d) && t.file == Doc(d) && t.mem == a && a.Known?
    && ((t.phase.Editing? && t.phase.doc == d) || t.phase == Restarting(d))
  }

  lemma EditStaysGone(t: State, u: string, e: string, a: Baseline, d: Json, p: (string, string))
    requires Attempting(t, a, d) && Gone(t.xray, a.parsed.clients, p)
    requires Cell(a.parsed.clients, p.0, p.1) != Cell(Parse(d).value.clients, p.0, p.1)
    ensures Attempting(DoEdit(t, u, e), a, d) && Gone(DoEdit(t, u, e).xray, a.parsed.clients, p)
  {
    var goal := Parse(d).value.clients;
    hide AddUser, RemoveUser, Parse, HasInbounds;
    if DoEdit(t, u, e).xray != t.xray {
      var h := if t.phase.half.Some? then t.phase.half.value else (u, e);
      if t.phase.half.None? && (Cell(goal, u, e).None? || Cell(t.mem.parsed.clients, u, e).Some?) {
        RemoveCells(t.xray, u, e);
      } else {
        AddCells(t.xray, h.0, h.1, Cell(goal, h.0, h.1).value);
      }
      assert p == (p.0, p.1);
    }
  }

  /** No call and no reload ever brings a pair that differs back to the baseline. */
  lemma StepStaysGone(t: State, step: Step, a: Baseline, d: Json, p: (string, string))
    requires Attempting(t, a, d) && Gone(t.xray, a.parsed.clients, p)
    requires Cell(a.parsed.clients, p.0, p.1) != Cell(Parse(d).value.clients, p.0, p.1)
    ensures Attempting(StepOf(t, step), a, d) && Gone(StepOf(t, step).xray, a.parsed.clients, p)
  {
    hide DoEdit;
    match step
    case Call(u, e) => EditStaysGone(t, u, e, a, d, p);
    case Reload => LoadParsed(d);
  }

  lemma {:induction false} StepsStayGone(t: State, steps: seq<Step>, a: Baseline, d: Json, p: (string, string))
    requires Attempting(t, a, d) && Gone(t.xray, a.parsed.clients, p)
    requires Cell(a.parsed.clients, p.0, p.1) != Cell(Parse(d).value.clients, p.0, p.1)
    ensures Attempting(Steps(t, steps), a, d) && Gone(Steps(t, steps).xray, a.parsed.clients, p)
  {
    if steps != [] {
      hide StepOf, Attempting, Gone, Cell, Parse;
      StepsStayGone(t, steps[..|steps| - 1], a, d, p);
      StepStaysGone(Steps(t, steps[..|steps| - 1]), steps[|steps| - 1], a, d, p);
    }
  }

  /** The first disturbance takes one of the pairs away from the baseline; until then nothing happens. */
  lemma FirstStep(s: State, step: Step, p: (string, string))
    requires Inv(s) && s.phase.Wrote? && s.mem.Known? && s.xray == Load(Doc(s.mem.doc))
    requires DoTryLive(s).phase.Editing? && p in ToEdit(s)
    requires step.Call? && Disturbs(step, ToEdit(s)) ==> p == (step.tag, step.email)
    ensures Attempting(StepOf(DoTryLive(s), step), s.mem, s.phase.doc)
    ensures if Disturbs(step, ToEdit(s)) then Gone(StepOf(DoTryLive(s), step).xray, s.mem.parsed.clients, p)
            else StepOf(DoTryLive(s), step) == DoTryLive(s)
  {
    var t, d := DoTryLive(s), s.phase.doc;
    LoadParsed(d);
    LoadParsed(s.mem.doc);
    SkeletonKeepsTags(s.mem.doc, d);
    TouchedExact(s.mem.doc, d, p.0, p.1);
    if step.Call? && Disturbs(step, ToEdit(s)) {
      DeltaStartsUntouched(s);
      DeltaNeverErrs(t, p.0, p.1);
    }
  }

  /** Either nothing has disturbed Xray since the attempt began, or some pair has left the baseline. */
  ghost predicate Outcome(s: State, t: State, quiet: bool)
    requires s.phase.Wrote? && HasInbounds(s.phase.doc) && s.mem.Known?
  {
    && Attempting(t, s.mem, s.phase.doc)
    && if quiet then t == DoTryLive(s) else exists p :: p in ToEdit(s) && Gone(t.xray, s.mem.parsed.clients, p)
  }

  predicate Quiet(s: State, steps: seq<Step>)
    requires s.phase.Wrote? && HasInbounds(s.phase.doc) && s.mem.Known?
  {
    forall i :: 0 <= i < |steps| ==> !Disturbs(steps[i], ToEdit(s))
  }

  lemma StepOutcome(s: State, t: State, quiet: bool, step: Step, q: (string, string))
    requires Inv(s) && s.phase.Wrote? && s.mem.Known? && s.xray == Load(Doc(s.mem.doc))
    requires DoTryLive(s).phase.Editing? && q in ToEdit(s) && Outcome(s, t, quiet)
    ensures Outcome(s, StepOf(t, step), quiet && !Disturbs(step, ToEdit(s)))
  {
    hide StepOf, Gone, DoTryLive, Load, Attempting;
    if quiet {
      FirstStep(s, step, if step.Call? && Disturbs(step, ToEdit(s)) then (step.tag, step.email) else q);
    } else {
      var p :| p in ToEdit(s) && Gone(t.xray, s.mem.parsed.clients, p);
      ToEditDiffers(s, p);
      StepStaysGone(t, step, s.mem, s.phase.doc, p);
    }
  }

  lemma {:induction false} StepsFrom(s: State, steps: seq<Step>, q: (string, string))
    requires Inv(s) && s.phase.Wrote? && s.mem.Known? && s.xray == Load(Doc(s.mem.doc))
    requires DoTryLive(s).phase.Editing? && q in ToEdit(s)
    ensures Outcome(s, Steps(DoTryLive(s), steps), Quiet(s, steps))
  {
    if steps == [] {
      LiveAttempts(s);
    } else {
      var rest, last := steps[..|steps| - 1], steps[|steps| - 1];
      assert Quiet(s, steps) <==> Quiet(s, rest) && !Disturbs(last, ToEdit(s)) by {
        assert forall i :: 0 <= i < |rest| ==> rest[i] == steps[i];
      }
      assert HasInbounds(s.phase.doc);
      hide StepOf, Outcome, Inv, DoTryLive, Load, ToEdit, Quiet;
      StepsFrom(s, rest, q);
      StepOutcome(s, Steps(DoTryLive(s), rest), Quiet(s, rest), last, q);
    }
  }

  lemma LiveAttempts(s: State)
    requires Inv(s) && s.phase.Wrote? && s.mem.Known?
    ensures Attempting(DoTryLive(s), s.mem, s.phase.doc)
  {
  }

  lemma ToEditDiffers(s: State, p: (string, string))
    requires Inv(s) && s.phase.Wrote? && s.mem.Known?
    ensures p in ToEdit(s) <==> Cell(s.mem.parsed.clients, p.0, p.1) != Cell(Parse(s.phase.doc).value.clients, p.0, p.1)
  {
    TouchedExact(s.mem.doc, s.phase.doc, p.0, p.1);
  }

  /** Without an attempt only a reload changes what Xray runs. */
  lemma {:induction false} StepsIdle(t: State, steps: seq<Step>)
    requires t.phase.Restarting?
    ensures Steps(t, steps) == if forall i :: 0 <= i < |steps| ==> steps[i].Call? then t else t.(xray := Load(t.file))
  {
    if steps != [] {
      var rest := steps[..|steps| - 1];
      StepsIdle(t, rest);
      assert forall i :: 0 <= i < |rest| ==> rest[i] == steps[i];
    }
  }

  /** With nothing to edit neither a call nor a reload changes what Xray runs. */
  lemma {:induction false} StepsSame(t: State, steps: seq<Step>)
    requires t.phase.Editing? && t.phase.todo == {} && t.phase.half.None? && t.xray == Load(t.file)
    ensures Steps(t, steps) == t
  {
    if steps != [] {
      StepsSame(t, steps[..|steps| - 1]);
    }
  }

  /** Different clients under one skeleton differ in some pair. */
  lemma SomePair(s: State) returns (p: (string, string))
    requires Inv(s) && s.phase.Wrote? && s.mem.Known? && DoTryLive(s).phase.Editing?
    requires Parse(s.phase.doc).value != s.mem.parsed
    ensures p in ToEdit(s)
  {
    SkeletonKeepsTags(s.mem.doc, s.phase.doc);
    var base, goal := s.mem.parsed.clients, Parse(s.phase.doc).value.clients;
    if forall t, e :: Cell(base, t, e) == Cell(goal, t, e) {
      CellsDecide(base, goal);
    }
    var t, e :| Cell(base, t, e) != Cell(goal, t, e);
    p := (t, e);
    ToEditDiffers(s, p);
  }

  /** What is in force when the restart has failed: the old baseline, over whatever the attempt left Xray running. */
  lemma FailedEnds(t: State, a: Baseline, d: Json)
    requires Attempting(t, a, d)
    ensures Next(Next(t, GrpcFails), DockerFails) == t.(phase := Idle)
  {
  }

  lemma EarlyKeeps(s: State)
    requires Inv(s) && s.phase.Wrote? && s.mem.Known?
    ensures var r := Next(s, XrayReload);
            Inv(r) && r == s.(xray := Load(Doc(s.phase.doc))) && DoTryLive(r) == DoTryLive(s).(xray := r.xray)
  {
    ReloadKeeps(s);
  }

  /** Where the attempt leaves Xray: on the baseline, on the new document, or with some pair gone. */
  lemma AttemptLeaves(s: State, early: bool, steps: seq<Step>)
    requires Inv(s) && s.phase.Wrote? && s.mem.Known? && s.xray == Load(Doc(s.mem.doc))
    ensures var t := Steps(DoTryLive(MaybeReload(s, early)), steps);
            && Attempting(t, s.mem, s.phase.doc)
            && (t.xray == Load(Doc(s.mem.doc)) <==>
                Parse(s.phase.doc).value == s.mem.parsed || NeverDisturbed(s, early, steps, false))
  {
    LoadParsed(s.mem.doc);
    LoadParsed(s.phase.doc);
    LiveAttempts(s);
    EarlyKeeps(s);
    var b := MaybeReload(s, early);
    if DoTryLive(s).phase.Restarting? {
      StepsIdle(DoTryLive(b), steps);
    } else if Parse(s.phase.doc).value == s.mem.parsed {
      assert Touched(s.mem.parsed.clients, s.mem.parsed.clients) == {};
      StepsSame(DoTryLive(b), steps);
    } else {
      var q := SomePair(s);
      ToEditDiffers(s, q);
      if early {
        StepsStayGone(DoTryLive(b), steps, s.mem, s.phase.doc, q);
      } else {
        StepsFrom(s, steps, q);
      }
    }
  }

  /**
   Exactly when a failed restart leaves a right baseline, wherever Xray reloaded the
   file by itself: if and only if the two documents parse alike, or there was no
   reload and none of the calls before it edited anything. A baseline that is wrong
   stays in force, and applying its own document again is reported as a live success
   although nothing is edited and Xray still runs something else.
   */
  lemma FailedRestartExact(s: State, early: bool, steps: seq<Step>, late: bool)
    requires Inv(s) && s.phase.Wrote? && s.mem.Known? && s.xray == Load(Doc(s.mem.doc))
    ensures var right := Parse(s.phase.doc).value == s.mem.parsed || NeverDisturbed(s, early, steps, late);
            var r := FailedApply(s, early, steps, late);
            var again := Next(DoTryLive(DoBegin(r, s.mem.doc)), FinishLive);
            && r.phase.Idle? && r.mem == s.mem && (Trusted(r) <==> right)
            && again.phase.Idle? && again.mem == s.mem && again.file == Doc(s.mem.doc) && again.xray == r.xray
            && (Trusted(again) <==> right)
  {
    hide DoTryLive, DoBegin, Steps, MaybeReload, Attempting, ToEdit;
    var t := Steps(DoTryLive(MaybeReload(s, early)), steps);
    AttemptLeaves(s, early, steps);
    FailedEnds(t, s.mem, s.phase.doc);
    LateReload(s, t, late);
    Reapplied(FailedApply(s, early, steps, late));
  }

  lemma LateReload(s: State, t: State, late: bool)
    requires Inv(s) && s.phase.Wrote? && s.mem.Known? && Attempting(t, s.mem, s.phase.doc)
    ensures var r := MaybeReload(t.(phase := Idle), late);
            && r.phase.Idle? && r.mem == s.mem && Faithful(r.mem)
            && (r.xray == Load(Doc(s.mem.doc)) <==>
                if late then Parse(s.phase.doc).value == s.mem.parsed else t.xray == Load(Doc(s.mem.doc)))
  {
    LoadParsed(s.mem.doc);
    LoadParsed(s.phase.doc);
  }

  /** Applying the baseline's own document edits nothing and succeeds. */
  lemma Reapplied(r: State)
    requires r.phase.Idle? && r.mem.Known? && Faithful(r.mem)
    ensures Next(DoTryLive(DoBegin(r, r.mem.doc)), FinishLive) == r.(file := Doc(r.mem.doc), disk := r.mem)
  {
    assert Touched(r.mem.parsed.clients, r.mem.parsed.clients) == {};
  }
}
