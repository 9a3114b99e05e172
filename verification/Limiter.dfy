/**
 The fixed-window failure counter that throttles logins
 (internal/panel/auth.go), compared with a reference that never forgets entries,
 and what its windows let through. Times are passed in.
 */
module Limiter {
  import opened Wrappers

  datatype Entry = Entry(count: nat, reset: int)

  datatype Op = Blocked(key: string) | Fail(key: string) | Reset(key: string)

  datatype Call = Call(op: Op, now: int)

  datatype Config = Config(max: int, window: nat)

  type Entries = map<string, Entry>

  const SWEEP_ABOVE := 4096

  predicate Expired(e: Entry, now: int) {
    now > e.reset
  }

  /** Whether `key` has used up its allowance in its current window. */
  predicate Answer(c: Config, m: Entries, key: string, now: int) {
    key in m && !Expired(m[key], now) && m[key].count >= c.max
  }

  /** Counts one failure, in the current window or in a new one. */
  function Counted(c: Config, m: Entries, key: string, now: int): Entries {
    if key in m && !Expired(m[key], now)
    then m[key := Entry(m[key].count + 1, m[key].reset)]
    else m[key := Entry(1, now + c.window)]
  }

  function Sweep(m: Entries, now: int): Entries {
    map k | k in m && !Expired(m[k], now) :: m[k]
  }

  /** The limiter: expired entries are dropped when looked at, and all of them when there are many. */
  function Step(c: Config, m: Entries, call: Call): Entries {
    match call.op
    case Blocked(key) => if key in m && Expired(m[key], call.now) then m - {key} else m
    case Fail(key) => var n := Counted(c, m, key, call.now); if |n| > SWEEP_ABOVE then Sweep(n, call.now) else n
    case Reset(key) => m - {key}
  }

  /** Counting a failure leaves the key's entry one up or new, and of many others only those still in their window. */
  lemma FailLeaves(c: Config, m: Entries, key: string, now: int)
    ensures var r := Step(c, m, Call(Fail(key), now));
            && key in r && r[key] == (if key in m && now <= m[key].reset then Entry(m[key].count + 1, m[key].reset)
                                      else Entry(1, now + c.window))
            && forall k :: k != key ==>
                 && (k in r <==> k in m && (|m.Keys + {key}| <= 4096 || now <= m[k].reset))
                 && (k in r ==> r[k] == m[k])
  {
    var n := Counted(c, m, key, now);
    assert n.Keys == m.Keys + {key} && |n| == |n.Keys|;
  }

  /** The reference: an entry leaves only by an explicit reset. */
  function RefStep(c: Config, m: Entries, call: Call): Entries {
    match call.op
    case Blocked(key) => m
    case Fail(key) => Counted(c, m, key, call.now)
    case Reset(key) => m - {key}
  }

  function Run(c: Config, calls: seq<Call>): Entries {
    if calls == [] then map[] else Step(c, Run(c, calls[..|calls| - 1]), calls[|calls| - 1])
  }

  function RefRun(c: Config, calls: seq<Call>): Entries {
    if calls == [] then map[] else RefStep(c, RefRun(c, calls[..|calls| - 1]), calls[|calls| - 1])
  }

  ghost predicate Ordered(calls: seq<Call>) {
    forall i, j :: 0 <= i < j < |calls| ==> calls[i].now <= calls[j].now
  }

  /** The two agree on every entry that is still in its window. */
  predicate AgreeOn(a: Entries, b: Entries, key: string, now: int) {
    && (key in a && !Expired(a[key], now) ==> key in b && b[key] == a[key])
    && (key in b && !Expired(b[key], now) ==> key in a && a[key] == b[key])
  }

  ghost predicate Agree(a: Entries, b: Entries, now: int) {
    forall key :: AgreeOn(a, b, key, now)
  }

  lemma StepAgrees(c: Config, a: Entries, b: Entries, call: Call)
    requires Agree(a, b, call.now)
    ensures Agree(Step(c, a, call), RefStep(c, b, call), call.now)
  {
    forall key
      ensures AgreeOn(Step(c, a, call), RefStep(c, b, call), key, call.now)
    {
      assert AgreeOn(a, b, key, call.now);
      assert AgreeOn(a, b, call.op.key, call.now);
    }
  }

  lemma {:induction false} RunsAgree(c: Config, calls: seq<Call>, now: int)
    requires Ordered(calls) && forall i :: 0 <= i < |calls| ==> calls[i].now <= now
    ensures Agree(Run(c, calls), RefRun(c, calls), now)
  {
    if calls == [] {
      assert forall key :: AgreeOn(map[], map[], key, now);
    } else {
      var rest, last := calls[..|calls| - 1], calls[|calls| - 1];
      RunsAgree(c, rest, last.now);
      StepAgrees(c, Run(c, rest), RefRun(c, rest), last);
      forall key
        ensures AgreeOn(Run(c, calls), RefRun(c, calls), key, now)
      {
        assert AgreeOn(Run(c, calls), RefRun(c, calls), key, last.now);
      }
    }
  }

  /**
   For every sequence of calls at non-decreasing times, the limiter answers exactly
   as the reference: dropping entries, one by one or in a sweep, is unobservable.
   */
  lemma ForgettingUnobservable(c: Config, calls: seq<Call>, key: string, now: int)
    requires Ordered(calls) && forall i :: 0 <= i < |calls| ==> calls[i].now <= now
    ensures Answer(c, Run(c, calls), key, now) == Answer(c, RefRun(c, calls), key, now)
  {
    RunsAgree(c, calls, now);
    assert AgreeOn(Run(c, calls), RefRun(c, calls), key, now);
  }

  // ---- what a window lets through ----

  /** The live entry of a key: what its next answer and its next failure depend on. */
  function Live(m: Entries, key: string, now: int): Option<Entry> {
    if key in m && !Expired(m[key], now) then Some(m[key]) else None
  }

  function AfterFailure(c: Config, e: Option<Entry>, now: int): Entry {
    if e.Some? then Entry(e.value.count + 1, e.value.reset) else Entry(1, now + c.window)
  }

  /** What one call does to a key's live entry: nothing at all unless it counts or resets that key. */
  lemma LiveAfter(c: Config, m: Entries, call: Call, key: string)
    ensures Live(Step(c, m, call), key, call.now) ==
            if call.op.key != key || call.op.Blocked? then Live(m, key, call.now)
            else if call.op.Fail? then Some(AfterFailure(c, Live(m, key, call.now), call.now))
            else None
  {
  }

  /**
   One attempt is counted under the client's address and under the account's name;
   the keys carry different prefixes.
   */
  datatype Login = Login(ip: string, user: string)

  datatype Outcome = Failed | Succeeded | CodeAsked

  /**
   An attempt asks first and settles later, once its password has been checked:
   other attempts may ask and settle in between.
   */
  datatype Event = Ask(id: nat, login: Login, now: int) | Settle(id: nat, outcome: Outcome, now: int)

  /** The failures let through for the watched key since one of them opened a window; a success closes it early. */
  datatype Window = Window(start: int, failures: seq<int>, closed: bool)

  /** The limiter, the attempts that have been let through and not settled, and the windows of the watched key. */
  datatype Watch = Watch(entries: Entries, flying: map<nat, Login>, windows: seq<Window>)

  predicate CountsFor(l: Login, key: string) {
    l.ip == key || l.user == key
  }

  function Record(open: bool, ws: seq<Window>, now: int): seq<Window> {
    if open && ws != []
    then ws[|ws| - 1 := ws[|ws| - 1].(failures := ws[|ws| - 1].failures + [now])]
    else ws + [Window(now, [now], false)]
  }

  function CloseLast(ws: seq<Window>): seq<Window> {
    if ws == [] then ws else ws[|ws| - 1 := ws[|ws| - 1].(closed := true)]
  }

  /** The address is asked first; a refusal there leaves the name unasked. */
  function Asked(c: Config, m: Entries, l: Login, now: int): Entries {
    if Answer(c, m, l.ip, now) then Step(c, m, Call(Blocked(l.ip), now))
    else Step(c, Step(c, m, Call(Blocked(l.ip), now)), Call(Blocked(l.user), now))
  }

  predicate Refused(c: Config, m: Entries, l: Login, now: int) {
    Answer(c, m, l.ip, now) || Answer(c, Step(c, m, Call(Blocked(l.ip), now)), l.user, now)
  }

  function DoAsk(c: Config, s: Watch, id: nat, l: Login, now: int): Watch {
    if id in s.flying || l.ip == l.user then s
    else if Refused(c, s.entries, l, now) then s.(entries := Asked(c, s.entries, l, now))
    else s.(entries := Asked(c, s.entries, l, now), flying := s.flying[id := l])
  }

  /**
   An attempt is let through exactly when neither its address nor its name has `max`
   failures in a window that is still running.
   */
  lemma LetThrough(c: Config, s: Watch, id: nat, l: Login, now: int)
    requires id !in s.flying && l.ip != l.user
    ensures id in DoAsk(c, s, id, l, now).flying <==>
            forall key :: key in s.entries && (key == l.ip || key == l.user) ==>
              now > s.entries[key].reset || s.entries[key].count < c.max
  {
  }

  function Settled(c: Config, m: Entries, l: Login, outcome: Outcome, now: int): Entries {
    match outcome
    case Failed => Step(c, Step(c, m, Call(Fail(l.ip), now)), Call(Fail(l.user), now))
    case Succeeded => Step(c, Step(c, m, Call(Reset(l.ip), now)), Call(Reset(l.user), now))
    case CodeAsked => m
  }

  function WindowsAfter(s: Watch, l: Login, outcome: Outcome, now: int, key: string): seq<Window> {
    if !CountsFor(l, key) || outcome.CodeAsked? then s.windows
    else if outcome.Failed? then Record(Live(s.entries, key, now).Some?, s.windows, now)
    else CloseLast(s.windows)
  }

  function DoSettle(c: Config, s: Watch, id: nat, outcome: Outcome, now: int, key: string): Watch {
    if id !in s.flying then s
    else Watch(Settled(c, s.entries, s.flying[id], outcome, now), s.flying - {id},
               WindowsAfter(s, s.flying[id], outcome, now, key))
  }

  function Next(c: Config, s: Watch, ev: Event, key: string): Watch {
    match ev
    case Ask(id, login, now) => DoAsk(c, s, id, login, now)
    case Settle(id, outcome, now) => DoSettle(c, s, id, outcome, now, key)
  }

  /**
   An attempt is settled once. A failure counts against its address and its name, in
   the running window or in a new one; a success forgets both; a password that was
   right while the code is still missing counts for neither.
   */
  lemma Settling(c: Config, s: Watch, id: nat, outcome: Outcome, now: int, key: string)
    requires id in s.flying && s.flying[id].ip != s.flying[id].user
    ensures var r, l := Next(c, s, Settle(id, outcome, now), key), s.flying[id];
            && r.flying == s.flying - {id}
            && (outcome.CodeAsked? ==> r.entries == s.entries)
            && (outcome.Succeeded? ==> r.entries == s.entries - {l.ip, l.user})
            && (outcome.Failed? ==> forall k :: k == l.ip || k == l.user ==>
                  k in r.entries && r.entries[k] ==
                    if k in s.entries && now <= s.entries[k].reset
                    then Entry(s.entries[k].count + 1, s.entries[k].reset) else Entry(1, now + c.window))
  {
    hide Step, WindowsAfter;
    var l := s.flying[id];
    BothCounted(c, s.entries, l, now);
    BothForgotten(c, s.entries, l, now);
  }

  lemma BothCounted(c: Config, m: Entries, l: Login, now: int)
    requires l.ip != l.user
    ensures forall k :: k == l.ip || k == l.user ==>
              var r := Step(c, Step(c, m, Call(Fail(l.ip), now)), Call(Fail(l.user), now));
              k in r && r[k] == if k in m && now <= m[k].reset then Entry(m[k].count + 1, m[k].reset)
                                else Entry(1, now + c.window)
  {
    hide Step;
    FailLeaves(c, m, l.ip, now);
    FailLeaves(c, Step(c, m, Call(Fail(l.ip), now)), l.user, now);
  }

  lemma BothForgotten(c: Config, m: Entries, l: Login, now: int)
    ensures Step(c, Step(c, m, Call(Reset(l.ip), now)), Call(Reset(l.user), now)) == m - {l.ip, l.user}
  {
  }

  function Logins(c: Config, evs: seq<Event>, key: string): Watch {
    if evs == [] then Watch(map[], map[], []) else Next(c, Logins(c, evs[..|evs| - 1], key), evs[|evs| - 1], key)
  }

  /** The attempts under way that will be counted under `key`. */
  function Flying(s: Watch, key: string): set<nat> {
    set id | id in s.flying && CountsFor(s.flying[id], key)
  }

  /** At most `k` attempts for the key are ever under way at once. */
  ghost predicate Overlap(c: Config, evs: seq<Event>, key: string, k: nat) {
    forall i :: 0 <= i <= |evs| ==> |Flying(Logins(c, evs[..i], key), key)| <= k
  }

  function AtLeastOne(n: int): int {
    if n < 1 then 1 else n
  }

  /** What a window may hold when up to `k` attempts overlap. */
  function Bound(c: Config, k: nat): int {
    AtLeastOne(c.max) + k - 1
  }

  /** A window holds between one failure and its bound, all within its length. */
  predicate WindowOk(c: Config, k: nat, w: Window) {
    && 1 <= |w.failures| <= Bound(c, k) && w.failures[0] == w.start
    && forall i :: 0 <= i < |w.failures| ==> w.start <= w.failures[i] <= w.start + c.window
  }

  /** A window starts only after the previous one ran out or was closed by a success. */
  predicate Apart(c: Config, v: Window, w: Window) {
    v.closed || v.start + c.window < w.start
  }

  /**
   The live entry is the last window while that is open and has not run out, and leaves room for the
   attempts under way.
   */
  predicate Mirrors(c: Config, k: nat, e: Option<Entry>, under: nat, ws: seq<Window>, now: int) {
    if e.Some? then
      && ws != [] && !ws[|ws| - 1].closed
      && e.value == Entry(|ws[|ws| - 1].failures|, ws[|ws| - 1].start + c.window)
      && e.value.count + under <= Bound(c, k)
    else
      ws != [] ==> ws[|ws| - 1].closed || ws[|ws| - 1].start + c.window < now
  }

  ghost predicate WindowsOk(c: Config, k: nat, ws: seq<Window>, now: int) {
    && (forall i :: 0 <= i < |ws| ==> WindowOk(c, k, ws[i]) && ws[i].start <= now)
    && (forall i :: 0 < i < |ws| ==> Apart(c, ws[i - 1], ws[i]))
  }

  ghost predicate WatchOk(c: Config, k: nat, s: Watch, key: string, now: int) {
    && Mirrors(c, k, Live(s.entries, key, now), |Flying(s, key)|, s.windows, now)
    && WindowsOk(c, k, s.windows, now)
    && (forall id :: id in s.flying ==> s.flying[id].ip != s.flying[id].user)
  }

  lemma LaterStillOk(c: Config, k: nat, s: Watch, key: string, t: int, now: int)
    requires WatchOk(c, k, s, key, t) && t <= now
    ensures WatchOk(c, k, s, key, now)
  {
  }

  /** Asking changes no live entry, and refuses whenever either key is used up. */
  lemma AskedLive(c: Config, m: Entries, l: Login, now: int, key: string)
    ensures Live(Asked(c, m, l, now), key, now) == Live(m, key, now)
    ensures Refused(c, m, l, now) <==> Answer(c, m, l.ip, now) || Answer(c, m, l.user, now)
  {
    hide Step;
    var looked := Step(c, m, Call(Blocked(l.ip), now));
    LiveAfter(c, m, Call(Blocked(l.ip), now), key);
    LiveAfter(c, m, Call(Blocked(l.ip), now), l.user);
    LiveAfter(c, looked, Call(Blocked(l.user), now), key);
  }

  lemma SettledLive(c: Config, m: Entries, l: Login, outcome: Outcome, now: int, key: string)
    requires l.ip != l.user
    ensures Live(Settled(c, m, l, outcome, now), key, now) ==
            if !CountsFor(l, key) || outcome.CodeAsked? then Live(m, key, now)
            else if outcome.Failed? then Some(AfterFailure(c, Live(m, key, now), now))
            else None
  {
    hide Step, Live, AfterFailure;
    var op := (k: string) => if outcome.Failed? then Fail(k) else Reset(k);
    LiveAfter(c, m, Call(op(l.ip), now), key);
    LiveAfter(c, Step(c, m, Call(op(l.ip), now)), Call(op(l.user), now), key);
  }

  lemma AskKeeps(c: Config, k: nat, s: Watch, id: nat, l: Login, now: int, key: string)
    requires WatchOk(c, k, s, key, now) && |Flying(DoAsk(c, s, id, l, now), key)| <= k
    ensures WatchOk(c, k, DoAsk(c, s, id, l, now), key, now)
  {
    hide Step, Asked, Refused, WindowsOk;
    AskedLive(c, s.entries, l, now, key);
    var r := DoAsk(c, s, id, l, now);
    if r.flying != s.flying {
      if CountsFor(l, key) {
        assert !Answer(c, s.entries, key, now);
      } else {
        assert Flying(r, key) == Flying(s, key);
      }
    } else {
      assert Flying(r, key) == Flying(s, key);
    }
  }

  lemma RecordOk(c: Config, k: nat, e: Option<Entry>, under: nat, ws: seq<Window>, now: int)
    requires Mirrors(c, k, e, under, ws, now) && WindowsOk(c, k, ws, now) && 1 <= under <= k
    requires e.Some? ==> now <= e.value.reset
    ensures Mirrors(c, k, Some(AfterFailure(c, e, now)), under - 1, Record(e.Some?, ws, now), now)
    ensures WindowsOk(c, k, Record(e.Some?, ws, now), now)
  {
    var n, r := |ws|, Record(e.Some?, ws, now);
    if e.Some? {
      assert WindowOk(c, k, ws[n - 1]);
      assert r[n - 1] == ws[n - 1].(failures := ws[n - 1].failures + [now]);
      assert WindowOk(c, k, r[n - 1]);
    } else {
      assert r == ws + [Window(now, [now], false)];
      assert WindowOk(c, k, r[n]);
    }
  }

  lemma SettleKeeps(c: Config, k: nat, s: Watch, id: nat, outcome: Outcome, now: int, key: string)
    requires WatchOk(c, k, s, key, now) && |Flying(s, key)| <= k
    ensures WatchOk(c, k, DoSettle(c, s, id, outcome, now, key), key, now)
  {
    hide Step, Settled, WindowsOk, Mirrors, Record;
    if id in s.flying {
      var l, r := s.flying[id], DoSettle(c, s, id, outcome, now, key);
      var e := Live(s.entries, key, now);
      SettledLive(c, s.entries, l, outcome, now, key);
      if CountsFor(l, key) {
        assert Flying(r, key) == Flying(s, key) - {id};
        if outcome.Failed? {
          RecordOk(c, k, e, |Flying(s, key)|, s.windows, now);
        } else if outcome.Succeeded? {
          CloseOk(c, k, e, |Flying(s, key)|, |Flying(r, key)|, s.windows, now);
        } else {
          FewerUnder(c, k, e, |Flying(s, key)|, |Flying(r, key)|, s.windows, now);
        }
      } else {
        assert Flying(r, key) == Flying(s, key);
      }
    }
  }

  lemma CloseOk(c: Config, k: nat, e: Option<Entry>, was: nat, under: nat, ws: seq<Window>, now: int)
    requires Mirrors(c, k, e, was, ws, now) && WindowsOk(c, k, ws, now)
    ensures Mirrors(c, k, None, under, CloseLast(ws), now) && WindowsOk(c, k, CloseLast(ws), now)
  {
    var n, r := |ws|, CloseLast(ws);
    if n > 0 {
      assert WindowOk(c, k, ws[n - 1]);
      assert WindowOk(c, k, r[n - 1]);
    }
  }

  lemma FewerUnder(c: Config, k: nat, e: Option<Entry>, was: nat, under: nat, ws: seq<Window>, now: int)
    requires Mirrors(c, k, e, was, ws, now) && under <= was
    ensures Mirrors(c, k, e, under, ws, now)
  {
  }

  lemma {:induction false} WatchHolds(c: Config, evs: seq<Event>, key: string, k: nat, now: int)
    requires forall i, j :: 0 <= i < j < |evs| ==> evs[i].now <= evs[j].now
    requires forall i :: 0 <= i < |evs| ==> evs[i].now <= now
    requires Overlap(c, evs, key, k)
    ensures WatchOk(c, k, Logins(c, evs, key), key, now)
  {
    hide Next, WatchOk, Flying;
    if evs == [] {
      NoneYet(c, k, key, now);
    } else {
      var rest, last := evs[..|evs| - 1], evs[|evs| - 1];
      var s, r := Logins(c, rest, key), Logins(c, evs, key);
      assert forall i :: 0 <= i <= |rest| ==> rest[..i] == evs[..i];
      assert evs[..|evs|] == evs && rest[..|rest|] == rest;
      WatchHolds(c, rest, key, k, last.now);
      assert |Flying(s, key)| <= k && |Flying(r, key)| <= k;
      NextKeeps(c, k, s, last, key);
      LaterStillOk(c, k, r, key, last.now, now);
    }
  }

  lemma NoneYet(c: Config, k: nat, key: string, now: int)
    ensures WatchOk(c, k, Watch(map[], map[], []), key, now)
  {
  }

  lemma NextKeeps(c: Config, k: nat, s: Watch, ev: Event, key: string)
    requires WatchOk(c, k, s, key, ev.now) && |Flying(s, key)| <= k && |Flying(Next(c, s, ev, key), key)| <= k
    ensures WatchOk(c, k, Next(c, s, ev, key), key, ev.now)
  {
    hide WatchOk, Flying;
    match ev
    case Ask(id, login, now) => AskKeeps(c, k, s, id, login, now, key);
    case Settle(id, outcome, now) => SettleKeeps(c, k, s, id, outcome, now, key);
  }

  /**
   However attempts overlap, as long as at most `k` for a key are under way at once,
   each of its windows lets through at most `max` failures (one, if `max` is
   smaller) plus the `k - 1` that may have asked before the last of them was
   counted, all within the window's length; and the next window starts only after
   it ran out, unless a successful login closed it.
   */
  lemma OverlapBounded(c: Config, evs: seq<Event>, key: string, k: nat)
    requires forall i, j :: 0 <= i < j < |evs| ==> evs[i].now <= evs[j].now
    requires Overlap(c, evs, key, k)
    ensures var ws := Logins(c, evs, key).windows;
            && (forall i :: 0 <= i < |ws| ==>
                  && 1 <= |ws[i].failures| <= AtLeastOne(c.max) + k - 1
                  && forall j :: 0 <= j < |ws[i].failures| ==>
                       ws[i].start <= ws[i].failures[j] <= ws[i].start + c.window)
            && (forall i :: 0 < i < |ws| ==> ws[i - 1].closed || ws[i - 1].start + c.window < ws[i].start)
  {
    WatchHolds(c, evs, key, k, if evs == [] then 0 else evs[|evs| - 1].now);
    var ws := Logins(c, evs, key).windows;
    assert forall i :: 0 <= i < |ws| ==> WindowOk(c, k, ws[i]);
    assert forall i :: 0 < i < |ws| ==> Apart(c, ws[i - 1], ws[i]);
  }

  /** When attempts for a key do not overlap, its windows let through at most `max` failures each. */
  lemma WindowsBounded(c: Config, evs: seq<Event>, key: string, i: nat)
    requires forall i, j :: 0 <= i < j < |evs| ==> evs[i].now <= evs[j].now
    requires Overlap(c, evs, key, 1) && i < |Logins(c, evs, key).windows|
    ensures 1 <= |Logins(c, evs, key).windows[i].failures| <= AtLeastOne(c.max)
  {
    OverlapBounded(c, evs, key, 1);
  }

  // ---- the bound is reached ----

  const SOMEONE := Login("ip:a", "user:a")

  /** `n` attempts, one after the other. */
  function Tries(n: nat): seq<Event> {
    if n == 0 then [] else Tries(n - 1) + [Ask(0, SOMEONE, 0)] + [Settle(0, Failed, 0)]
  }

  function Asks(evs: seq<Event>, k: nat): seq<Event> {
    if k == 0 then evs else Asks(evs, k - 1) + [Ask(k - 1, SOMEONE, 0)]
  }

  function Settles(evs: seq<Event>, k: nat): seq<Event> {
    if k == 0 then evs else Settles(evs, k - 1) + [Settle(k - 1, Failed, 0)]
  }

  function Counting(c: Config, n: nat): Entries {
    if n == 0 then map[] else map["ip:a" := Entry(n, c.window), "user:a" := Entry(n, c.window)]
  }

  function Zeros(n: nat): seq<int> {
    seq(n, i => 0)
  }

  function Failures(n: nat): seq<Window> {
    if n == 0 then [] else [Window(0, Zeros(n), false)]
  }

  function Under(lo: nat, hi: nat): (m: map<nat, Login>)
    ensures forall i :: i in m <==> lo <= i < hi
    ensures forall i :: i in m ==> m[i] == SOMEONE
    ensures |m| == if lo <= hi then hi - lo else 0
    decreases hi
  {
    if lo >= hi then map[] else Under(lo, hi - 1)[hi - 1 := SOMEONE]
  }

  /** Attempts `lo` to `hi - 1` under way, `n` failures counted. */
  function Busy(c: Config, n: nat, lo: nat, hi: nat): Watch {
    Watch(Counting(c, n), Under(lo, hi), Failures(n))
  }

  lemma StepLogins(c: Config, evs: seq<Event>, ev: Event, key: string, k: nat)
    requires Overlap(c, evs, key, k) && |Flying(Next(c, Logins(c, evs, key), ev, key), key)| <= k
    ensures Logins(c, evs + [ev], key) == Next(c, Logins(c, evs, key), ev, key)
    ensures Overlap(c, evs + [ev], key, k)
  {
    hide Next, Flying;
    var all := evs + [ev];
    assert all[..|evs|] == evs;
    forall i | 0 <= i <= |all|
      ensures |Flying(Logins(c, all[..i], key), key)| <= k
    {
      if i <= |evs| {
        assert all[..i] == evs[..i];
      } else {
        assert all[..i] == all;
      }
    }
  }

  lemma BusyFlying(c: Config, n: nat, lo: nat, hi: nat)
    requires lo <= hi
    ensures |Flying(Busy(c, n, lo, hi), "ip:a")| == hi - lo
  {
    assert Flying(Busy(c, n, lo, hi), "ip:a") == Under(lo, hi).Keys;
  }

  lemma AskBusy(c: Config, n: nat, hi: nat)
    requires n < c.max
    ensures Next(c, Busy(c, n, 0, hi), Ask(hi, SOMEONE, 0), "ip:a") == Busy(c, n, 0, hi + 1)
  {
  }

  lemma CountingOne(c: Config, n: nat)
    ensures Settled(c, Counting(c, n), SOMEONE, Failed, 0) == Counting(c, n + 1)
    ensures Live(Counting(c, n), "ip:a", 0).Some? <==> n > 0
  {
  }

  lemma FailuresOne(n: nat)
    ensures Record(n > 0, Failures(n), 0) == Failures(n + 1)
  {
    assert Zeros(n) + [0] == Zeros(n + 1);
    if n == 0 {
      assert Zeros(n + 1) == [0];
    } else {
      assert Record(true, Failures(n), 0)[0] == Window(0, Zeros(n) + [0], false);
    }
  }

  lemma SettleBusy(c: Config, n: nat, lo: nat, hi: nat)
    requires lo < hi
    ensures Next(c, Busy(c, n, lo, hi), Settle(lo, Failed, 0), "ip:a") == Busy(c, n + 1, lo + 1, hi)
  {
    hide Settled, Counting, Record, Failures, Live;
    CountingOne(c, n);
    FailuresOne(n);
    assert Under(lo, hi) - {lo} == Under(lo + 1, hi);
  }

  /** The bound is exact: for every `max` and every overlap some run reaches it. */
  lemma BoundReached(c: Config, k: nat)
    requires c.max >= 1 && k >= 1
    ensures var evs := Settles(Asks(Tries(c.max - 1), k), k);
            && Overlap(c, evs, "ip:a", k)
            && Logins(c, evs, "ip:a").windows == [Window(0, Zeros(Bound(c, k)), false)]
  {
    hide Logins, Overlap, Settles, Asks, Tries, Counting, Under, Zeros;
    TriesRun(c, c.max - 1, k);
    AsksRun(c, Tries(c.max - 1), c.max - 1, k, k);
    SettlesRun(c, Asks(Tries(c.max - 1), k), c.max - 1, k, k);
  }

  lemma {:induction false} TriesRun(c: Config, n: nat, k: nat)
    requires n < c.max && k >= 1
    ensures Logins(c, Tries(n), "ip:a") == Busy(c, n, 0, 0) && Overlap(c, Tries(n), "ip:a", k)
  {
    hide Next, Flying, Busy, Overlap, Logins;
    if n == 0 {
      NoTries(c, k);
    } else {
      TriesRun(c, n - 1, k);
      AskBusy(c, n - 1, 0);
      BusyFlying(c, n - 1, 0, 1);
      StepLogins(c, Tries(n - 1), Ask(0, SOMEONE, 0), "ip:a", k);
      SettleBusy(c, n - 1, 0, 1);
      BusyFlying(c, n, 1, 1);
      StepLogins(c, Tries(n - 1) + [Ask(0, SOMEONE, 0)], Settle(0, Failed, 0), "ip:a", k);
      NoneUnder(c, n);
    }
  }

  lemma NoTries(c: Config, k: nat)
    ensures Logins(c, [], "ip:a") == Busy(c, 0, 0, 0) && Overlap(c, [], "ip:a", k)
  {
    BusyFlying(c, 0, 0, 0);
  }

  lemma NoneUnder(c: Config, n: nat)
    ensures Busy(c, n, 1, 1) == Busy(c, n, 0, 0)
  {
  }

  lemma {:induction false} AsksRun(c: Config, evs: seq<Event>, n: nat, j: nat, k: nat)
    requires n < c.max && j <= k
    requires Logins(c, evs, "ip:a") == Busy(c, n, 0, 0) && Overlap(c, evs, "ip:a", k)
    ensures Logins(c, Asks(evs, j), "ip:a") == Busy(c, n, 0, j) && Overlap(c, Asks(evs, j), "ip:a", k)
  {
    hide Next, Flying, Busy, Overlap, Logins;
    if j > 0 {
      AsksRun(c, evs, n, j - 1, k);
      AskBusy(c, n, j - 1);
      BusyFlying(c, n, 0, j);
      StepLogins(c, Asks(evs, j - 1), Ask(j - 1, SOMEONE, 0), "ip:a", k);
    }
  }

  lemma {:induction false} SettlesRun(c: Config, evs: seq<Event>, n: nat, j: nat, k: nat)
    requires j <= k
    requires Logins(c, evs, "ip:a") == Busy(c, n, 0, k) && Overlap(c, evs, "ip:a", k)
    ensures Logins(c, Settles(evs, j), "ip:a") == Busy(c, n + j, j, k) && Overlap(c, Settles(evs, j), "ip:a", k)
  {
    hide Next, Flying, Busy, Overlap, Logins;
    if j > 0 {
      SettlesRun(c, evs, n, j - 1, k);
      SettleBusy(c, n + (j - 1), j - 1, k);
      BusyFlying(c, n + j, j, k);
      StepLogins(c, Settles(evs, j - 1), Settle(j - 1, Failed, 0), "ip:a", k);
    }
  }
}

/** The limiter as the object the source updates in place. */
module LoginLimiter {
  import L = Limiter

  class Limiter {
    const config: L.Config
    var entries: map<string, L.Entry>

    constructor (max: int, window: nat)
      ensures config == L.Config(max, window) && entries == map[]
    {
      config := L.Config(max, window);
      entries := map[];
    }

    method Blocked(key: string, now: int) returns (blocked: bool)
      modifies this
      ensures blocked == L.Answer(config, old(entries), key, now)
      ensures blocked <==>
                key in old(entries) && now <= old(entries)[key].reset && old(entries)[key].count >= config.max
      ensures entries == L.Step(config, old(entries), L.Call(L.Blocked(key), now))
      ensures entries ==
                if key in old(entries) && now > old(entries)[key].reset then old(entries) - {key} else old(entries)
    {
      if key !in entries {
        return false;
      }
      var e := entries[key];
      if now > e.reset {
        entries := entries - {key};
        return false;
      }
      blocked := e.count >= config.max;
    }

    method Fail(key: string, now: int)
      modifies this
      ensures entries == L.Step(config, old(entries), L.Call(L.Fail(key), now))
      ensures key in entries && entries[key] ==
                if key in old(entries) && now <= old(entries)[key].reset
                then L.Entry(old(entries)[key].count + 1, old(entries)[key].reset) else L.Entry(1, now + config.window)
      ensures forall k :: k != key ==>
                && (k in entries <==>
                      k in old(entries) && (|old(entries).Keys + {key}| <= 4096 || now <= old(entries)[k].reset))
                && (k in entries ==> entries[k] == old(entries)[k])
    {
      L.FailLeaves(config, entries, key, now);
      var e := if key !in entries || now > entries[key].reset then L.Entry(0, now + config.window) else entries[key];
      entries := entries[key := e.(count := e.count + 1)];
      if |entries| > L.SWEEP_ABOVE {
        SweepExpired(now);
      }
    }

    /** Deletes the expired entries, in any order. */
    method SweepExpired(now: int)
      modifies this
      ensures entries == L.Sweep(old(entries), now)
    {
      var todo := entries.Keys;
      while todo != {}
        invariant todo <= old(entries).Keys
        invariant forall k :: k in entries <==> k in old(entries) && (k in todo || !L.Expired(old(entries)[k], now))
        invariant forall k :: k in entries ==> entries[k] == old(entries)[k]
      {
        var k :| k in todo;
        if k in entries && now > entries[k].reset {
          entries := entries - {k};
        }
        todo := todo - {k};
      }
    }

    method Reset(key: string)
      modifies this
      ensures entries == old(entries) - {key} == L.Step(config, old(entries), L.Call(L.Reset(key), 0))
    {
      entries := entries - {key};
    }
  }
}
