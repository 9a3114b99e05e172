/** The Gregorian calendar by month: day numbers count from the Unix epoch. */
module Calendar {

  predicate Leap(y: int) {
    y % 4 == 0 && (y % 100 != 0 || y % 400 == 0)
  }

  function MonthLength(y: int, m: int): int {
    if m == 2 then (if Leap(y) then 29 else 28)
    else if m == 4 || m == 6 || m == 9 || m == 11 then 30
    else 31
  }

  // Months are numbered consecutively, twelve to a year, from the January of year 0.

  const EPOCH_MONTH := 23640   // January 1970

  function MonthDays(k: int): (n: int)
    ensures 28 <= n <= 31
  {
    MonthLength(k / 12, k % 12 + 1)
  }

  /** The day number of a month's first day. */
  function MonthStart(k: int): int
    decreases if k < EPOCH_MONTH then EPOCH_MONTH - k else k - EPOCH_MONTH
  {
    if k == EPOCH_MONTH then 0
    else if k > EPOCH_MONTH then MonthStart(k - 1) + MonthDays(k - 1)
    else MonthStart(k + 1) - MonthDays(k)
  }

  /** Each month starts its own length before the next one, across December too. */
  lemma NextMonth(k: int)
    ensures MonthStart(k + 1) == MonthStart(k) + MonthDays(k)
  {
  }

  // ---- the closed formula ----

  const DAYS_BEFORE := [0, 31, 59, 90, 120, 151, 181, 212, 243, 273, 304, 334]

  /** Days from the epoch to the first of a month, by counting the leap years since year 1. */
  function DaysTo(y: int, m: int): int
    requires 1 <= m <= 12
  {
    365 * (y - 1) + (y - 1) / 4 - (y - 1) / 100 + (y - 1) / 400 +
    DAYS_BEFORE[m - 1] + (if m > 2 && Leap(y) then 1 else 0) - 719162
  }

  lemma DivStep(y: int, n: int)
    requires n > 0
    ensures y / n - (y - 1) / n == if y % n == 0 then 1 else 0
  {
    assert y - 1 == (y / n) * n + (y % n - 1);
    if y % n == 0 {
      DivIs(y - 1, n, y / n - 1, n - 1);
    } else {
      DivIs(y - 1, n, y / n, y % n - 1);
    }
  }

  lemma DivIs(x: int, n: int, q: int, r: int)
    requires n > 0 && x == q * n + r && 0 <= r < n
    ensures x / n == q
  {
    var d := x / n - q;
    assert x == (x / n) * n + x % n;
    assert d * n == r - x % n;
    Scaled(d, n);
  }

  lemma {:induction false} Scaled(d: int, n: int)
    requires n > 0
    ensures d > 0 ==> d * n >= n
    ensures d < 0 ==> d * n <= -n
    decreases if d > 0 then d else -d
  {
    if d > 0 {
      Scaled(d - 1, n);
      assert d * n == (d - 1) * n + n;
    } else if d < 0 {
      Scaled(d + 1, n);
      assert d * n == (d + 1) * n - n;
    }
  }

  /** A year counts for a leap day as often as the three divisions say. */
  lemma LeapCount(y: int)
    ensures (if Leap(y) then 1 else 0) ==
            (y / 4 - (y - 1) / 4) - (y / 100 - (y - 1) / 100) + (y / 400 - (y - 1) / 400)
  {
    DivStep(y, 4);
    DivStep(y, 100);
    DivStep(y, 400);
    assert y % 400 == 0 ==> y % 100 == 0;
    assert y % 100 == 0 ==> y % 4 == 0;
  }

  lemma DaysToNext(y: int, m: int)
    requires 1 <= m <= 12
    ensures (if m == 12 then DaysTo(y + 1, 1) else DaysTo(y, m + 1)) == DaysTo(y, m) + MonthLength(y, m)
  {
    LeapCount(y);
    hide Leap;
    assert (y + 1) - 1 == y;
  }

  lemma Split(k: int)
    ensures 1 <= k % 12 + 1 <= 12
    ensures if k % 12 == 11 then (k + 1) / 12 == k / 12 + 1 && (k + 1) % 12 == 0
            else (k + 1) / 12 == k / 12 && (k + 1) % 12 == k % 12 + 1
  {
  }

  lemma YearAndMonth(y: int, m: int)
    requires 1 <= m <= 12
    ensures (12 * y + m - 1) / 12 == y && (12 * y + m - 1) % 12 == m - 1
  {
  }

  lemma {:induction false} StartIs(k: int)
    ensures MonthStart(k) == DaysTo(k / 12, k % 12 + 1)
    decreases if k < EPOCH_MONTH then EPOCH_MONTH - k else k - EPOCH_MONTH
  {
    hide DaysTo, MonthLength;
    if k == EPOCH_MONTH {
      Epoch();
    } else if k > EPOCH_MONTH {
      StartIs(k - 1);
      Split(k - 1);
      DaysToNext((k - 1) / 12, (k - 1) % 12 + 1);
    } else {
      StartIs(k + 1);
      Split(k);
      DaysToNext(k / 12, k % 12 + 1);
    }
  }

  lemma Epoch()
    ensures DaysTo(1970, 1) == 0
  {
  }

  /**
   Months start where the Gregorian calendar has them: the first of month `m` of year
   `y`, in days from 1 January 1970, for every year and with its leap years.
   */
  lemma MonthStartIs(y: int, m: int)
    requires 1 <= m <= 12
    ensures MonthStart(12 * y + m - 1) ==
            365 * (y - 1) + (y - 1) / 4 - (y - 1) / 100 + (y - 1) / 400 +
            [0, 31, 59, 90, 120, 151, 181, 212, 243, 273, 304, 334][m - 1] +
            (if m > 2 && y % 4 == 0 && (y % 100 != 0 || y % 400 == 0) then 1 else 0) - 719162
  {
    hide MonthStart;
    YearAndMonth(y, m);
    StartIs(12 * y + m - 1);
    assert MonthStart(12 * y + m - 1) == DaysTo(y, m);
  }

  lemma {:induction false} MonthsInOrder(j: int, k: int)
    requires j < k
    ensures MonthStart(j + 1) <= MonthStart(k)
    decreases k - j
  {
    if j + 1 < k {
      MonthsInOrder(j + 1, k);
      NextMonth(j + 1);
    }
  }

  function Away(day: int, k: int): nat {
    if day < MonthStart(k) then MonthStart(k) - day
    else if day >= MonthStart(k + 1) then day - MonthStart(k)
    else 0
  }

  lemma AwayShrinks(day: int, k: int)
    ensures day < MonthStart(k) ==> Away(day, k - 1) < Away(day, k)
    ensures day >= MonthStart(k + 1) ==> Away(day, k + 1) < Away(day, k)
  {
  }

  function FindMonth(day: int, k: int): (r: int)
    ensures MonthStart(r) <= day < MonthStart(r + 1)
    decreases Away(day, k)
  {
    AwayShrinks(day, k);
    if day < MonthStart(k) then FindMonth(day, k - 1)
    else if day >= MonthStart(k + 1) then FindMonth(day, k + 1)
    else k
  }

  /** The month a day falls in. */
  function MonthOf(day: int): (k: int)
    ensures MonthStart(k) <= day < MonthStart(k + 1)
  {
    FindMonth(day, EPOCH_MONTH)
  }

  function DayOfMonth(day: int): int {
    day - MonthStart(MonthOf(day)) + 1
  }

  lemma MonthUnique(day: int, k: int)
    requires MonthStart(k) <= day < MonthStart(k + 1)
    ensures MonthOf(day) == k
  {
    var r := MonthOf(day);
    if r < k {
      MonthsInOrder(r, k);
    } else if k < r {
      MonthsInOrder(k, r);
    }
  }

  lemma MonthMonotone(a: int, b: int)
    requires a <= b
    ensures MonthOf(a) <= MonthOf(b)
  {
    hide MonthStart;
    if MonthOf(b) < MonthOf(a) {
      MonthsInOrder(MonthOf(b), MonthOf(a));
    }
  }

  /**
   The day before the first of the next month carries the month's length as its
   day of month: 28 to 31 by the usual table, February by the leap-year rule.
   */
  lemma LastDayIsLength(k: int)
    ensures DayOfMonth(MonthStart(k + 1) - 1) == MonthDays(k)
  {
    NextMonth(k);
    MonthUnique(MonthStart(k + 1) - 1, k);
  }
}

/** Monthly quota resets (internal/panel/traffic.go), in seconds of UTC. */
module MonthlyReset {
  import opened Wrappers
  import opened Traffic
  import opened StoreSpec
  import opened Ledgers
  import opened Calendar
  import Ordering
  import Panel

  function MonthAt(now: int): int {
    MonthOf(now / SECONDS_PER_DAY)
  }

  /** The reset day, clamped to the month as the source finds its length. */
  function ClampedDay(k: int, resetDay: int): int {
    if resetDay > DayOfMonth(MonthStart(k + 1) - 1) then DayOfMonth(MonthStart(k + 1) - 1) else resetDay
  }

  /** The start of the month's reset day. */
  function Instant(k: int, resetDay: int): int {
    (MonthStart(k) + ClampedDay(k, resetDay) - 1) * SECONDS_PER_DAY
  }

  function MonthlyResetDue(now: int, resetDay: int, lastReset: int): Option<int> {
    if resetDay < 1 then None
    else if now < Instant(MonthAt(now), resetDay) || lastReset >= Instant(MonthAt(now), resetDay) then None
    else Some(Instant(MonthAt(now), resetDay))
  }

  lemma ClampedIs(k: int, resetDay: int)
    ensures ClampedDay(k, resetDay) == if resetDay > MonthDays(k) then MonthDays(k) else resetDay
  {
    LastDayIsLength(k);
  }

  lemma Scaled(a: int, b: int, c: int)
    requires a <= b < c
    ensures a * SECONDS_PER_DAY <= b * SECONDS_PER_DAY < c * SECONDS_PER_DAY
  {
  }

  /** A month's reset instant lies within the month, on its last day at the latest. */
  lemma InstantInMonth(k: int, resetDay: int)
    requires resetDay >= 1
    ensures MonthStart(k) * 86400 <= Instant(k, resetDay) < MonthStart(k + 1) * 86400
  {
    ClampedIs(k, resetDay);
    NextMonth(k);
    Scaled(MonthStart(k), MonthStart(k) + ClampedDay(k, resetDay) - 1, MonthStart(k + 1));
  }

  lemma ScaledBack(d: int)
    ensures (d * SECONDS_PER_DAY) / SECONDS_PER_DAY == d && (d * SECONDS_PER_DAY) % SECONDS_PER_DAY == 0
  {
  }

  /** The reset instant is midnight of the reset day in its month, or of the month's last day if it is shorter. */
  lemma InstantIsResetDay(k: int, resetDay: int)
    requires resetDay >= 1
    ensures Instant(k, resetDay) % 86400 == 0 && MonthAt(Instant(k, resetDay)) == k
    ensures DayOfMonth(Instant(k, resetDay) / 86400) ==
            if resetDay > MonthDays(k) then MonthDays(k) else resetDay
  {
    ClampedIs(k, resetDay);
    NextMonth(k);
    ScaledBack(MonthStart(k) + ClampedDay(k, resetDay) - 1);
    MonthUnique(MonthStart(k) + ClampedDay(k, resetDay) - 1, k);
  }

  /** The day that traffic is recorded under at `now` is a day of the month that `now` is in. */
  lemma DayInMonth(now: int, k: int)
    requires k * 86400 <= now < (k + 1) * 86400
    ensures MonthStart(MonthAt(now)) <= k < MonthStart(MonthAt(now) + 1)
  {
    DayHolds(now, k);
  }

  lemma TimeInMonth(now: int)
    ensures MonthStart(MonthAt(now)) * SECONDS_PER_DAY <= now < MonthStart(MonthAt(now) + 1) * SECONDS_PER_DAY
  {
  }

  // ---- a run of checks for one user ----

  datatype Progress = Progress(lastReset: int, resets: nat)

  function Check(p: Progress, now: int, resetDay: int): Progress {
    if MonthlyResetDue(now, resetDay, p.lastReset).Some? then Progress(now, p.resets + 1) else p
  }

  function Checks(times: seq<int>, resetDay: int, initial: int): Progress {
    if times == [] then Progress(initial, 0)
    else Check(Checks(times[..|times| - 1], resetDay, initial), times[|times| - 1], resetDay)
  }

  /** A check at or after its month's reset instant, in a month not yet reset before the run. */
  predicate Triggers(now: int, resetDay: int, initial: int) {
    Instant(MonthAt(now), resetDay) <= now && initial < Instant(MonthAt(now), resetDay)
  }

  /** The distinct months that contain such a check. */
  function ResetMonths(times: seq<int>, resetDay: int, initial: int): set<int> {
    if times == [] then {}
    else ResetMonths(times[..|times| - 1], resetDay, initial) +
         (if Triggers(times[|times| - 1], resetDay, initial) then {MonthAt(times[|times| - 1])} else {})
  }

  /** A time at or after midnight of its month's reset day, clamped to the month, if that is later than `initial`. */
  predicate Reaches(t: int, k: int, resetDay: int, initial: int) {
    var midnight := (MonthStart(k) + (if resetDay > MonthDays(k) then MonthDays(k) else resetDay) - 1) * 86400;
    MonthAt(t) == k && midnight <= t && initial < midnight
  }

  /** Which months those are. */
  lemma {:induction false} MonthsReset(times: seq<int>, resetDay: int, initial: int, k: int)
    ensures k in ResetMonths(times, resetDay, initial) <==>
            exists i :: 0 <= i < |times| && Reaches(times[i], k, resetDay, initial)
  {
    if times != [] {
      hide Instant, MonthAt, Reaches;
      var rest, last := times[..|times| - 1], times[|times| - 1];
      MonthsReset(rest, resetDay, initial, k);
      MonthReset(last, k, resetDay, initial);
      if i :| 0 <= i < |rest| && Reaches(rest[i], k, resetDay, initial) {
        assert times[i] == rest[i];
      }
      if i :| 0 <= i < |times| && Reaches(times[i], k, resetDay, initial) {
        if i < |rest| {
          assert rest[i] == times[i];
        }
      }
    }
  }

  lemma MonthReset(t: int, k: int, resetDay: int, initial: int)
    ensures MonthAt(t) == k && Triggers(t, resetDay, initial) <==> Reaches(t, k, resetDay, initial)
  {
    hide MonthAt;
    ClampedIs(k, resetDay);
  }

  ghost predicate NonDecreasing(times: seq<int>) {
    forall i, j :: 0 <= i < j < |times| ==> times[i] <= times[j]
  }

  /** After a run: one reset per month, and the last one was in the latest of those months. */
  ghost predicate RunOk(times: seq<int>, resetDay: int, initial: int, now: int) {
    var p, months := Checks(times, resetDay, initial), ResetMonths(times, resetDay, initial);
    && p.resets == |months|
    && initial <= p.lastReset
    && (forall k :: k in months ==> Instant(k, resetDay) <= p.lastReset)
    && (p.lastReset == initial || (p.lastReset <= now && MonthAt(p.lastReset) in months))
  }

  lemma MonthAtMonotone(a: int, b: int)
    requires a <= b
    ensures MonthAt(a) <= MonthAt(b)
  {
    MonthMonotone(a / SECONDS_PER_DAY, b / SECONDS_PER_DAY);
  }

  /** A check resets exactly when it triggers a month that has not been reset yet. */
  lemma DueIffNewMonth(last: int, months: set<int>, resetDay: int, initial: int, now: int)
    requires resetDay >= 1 && initial <= last
    requires forall k :: k in months ==> Instant(k, resetDay) <= last
    requires last == initial || (last <= now && MonthAt(last) in months)
    ensures MonthlyResetDue(now, resetDay, last).Some? <==> Triggers(now, resetDay, initial) && MonthAt(now) !in months
  {
    hide Instant, MonthAt;
    var k := MonthAt(now);
    if last != initial && k !in months {
      MonthAtMonotone(last, now);
      EarlierMonthBefore(last, k, resetDay);
    }
  }

  /** A time in an earlier month is before a month's reset instant. */
  lemma EarlierMonthBefore(t: int, k: int, resetDay: int)
    requires resetDay >= 1 && MonthAt(t) < k
    ensures t < Instant(k, resetDay)
  {
    TimeInMonth(t);
    MonthsInOrder(MonthAt(t), k);
    InstantInMonth(k, resetDay);
    assert MonthStart(MonthAt(t) + 1) * SECONDS_PER_DAY <= MonthStart(k) * SECONDS_PER_DAY;
  }

  /**
   Over any run of checks with a clock that never goes back, the number of resets is
   the number of distinct months containing a check at or after the month's reset
   instant, among the months whose instant lies after the last reset before the run.
   */
  lemma {:induction false} ResetCount(times: seq<int>, resetDay: int, initial: int, now: int)
    requires resetDay >= 1 && NonDecreasing(times)
    requires forall i :: 0 <= i < |times| ==> times[i] <= now
    ensures RunOk(times, resetDay, initial, now)
  {
    if times != [] {
      hide RunOk;
      var rest, t := times[..|times| - 1], times[|times| - 1];
      ResetCount(rest, resetDay, initial, t);
      CheckKeepsOk(times, resetDay, initial, now);
    }
  }

  lemma CheckKeepsOk(times: seq<int>, resetDay: int, initial: int, now: int)
    requires resetDay >= 1 && times != [] && times[|times| - 1] <= now
    requires RunOk(times[..|times| - 1], resetDay, initial, times[|times| - 1])
    ensures RunOk(times, resetDay, initial, now)
  {
    hide Instant, MonthAt, MonthlyResetDue, MonthStart;
    var rest, t := times[..|times| - 1], times[|times| - 1];
    var p, months := Checks(rest, resetDay, initial), ResetMonths(rest, resetDay, initial);
    DueIffNewMonth(p.lastReset, months, resetDay, initial, t);
    assert months + {} == months;
    assert MonthAt(t) in months ==> months + {MonthAt(t)} == months;
  }

  /** With resets disabled nothing is ever reset. */
  lemma {:induction false} DisabledNeverResets(times: seq<int>, resetDay: int, initial: int)
    requires resetDay < 1
    ensures Checks(times, resetDay, initial) == Progress(initial, 0)
  {
    if times != [] {
      DisabledNeverResets(times[..|times| - 1], resetDay, initial);
    }
  }

  // ---- the check over the store ----

  function ResetUser(t: Tables, u: int, now: int): Tables {
    if u in t.users && MonthlyResetDue(now, t.users[u].resetDay, t.users[u].lastReset).Some?
    then SetLastReset(ResetUserTraffic(t, u), u, now) else t
  }

  function ResetAll(t: Tables, ids: seq<int>, now: int): Tables {
    if ids == [] then t else ResetUser(ResetAll(t, ids[..|ids| - 1], now), ids[|ids| - 1], now)
  }

  /** What a check leaves of one user's row. */
  function AfterCheck(row: User, now: int): User {
    if MonthlyResetDue(now, row.resetDay, row.lastReset).Some? then row.(dataUsed := 0, lastReset := now) else row
  }

  lemma {:induction false} ResetAllRows(t: Tables, ids: seq<int>, now: int, u: int)
    requires forall i, j :: 0 <= i < j < |ids| ==> ids[i] < ids[j]
    ensures var r := ResetAll(t, ids, now);
            && (u in r.users <==> u in t.users)
            && (u in t.users ==> r.users[u] == if u in ids then AfterCheck(t.users[u], now) else t.users[u])
  {
    if ids != [] {
      var rest, last := ids[..|ids| - 1], ids[|ids| - 1];
      ResetAllRows(t, rest, now, u);
      assert ids == rest + [last];
      assert last !in rest;
    }
  }

  method ResetIfDue(store: Panel.Store, u: int, row: User, now: int)
    requires u in store.users && store.users[u] == row
    modifies store
    ensures store.View() == ResetUser(old(store.View()), u, now)
  {
    var due := MonthlyResetDue(now, row.resetDay, row.lastReset);
    if due.None? {
      return;
    }
    store.ResetUserTraffic(u);
    store.SetUserLastReset(u, now);
  }

  lemma AllRowsChecked(t: Tables, now: int)
    ensures var r := ResetAll(t, Ordering.Ordered(t.users.Keys), now);
            && r.users.Keys == t.users.Keys
            && forall u :: u in t.users ==> r.users[u] == AfterCheck(t.users[u], now)
  {
    hide ResetAll, AfterCheck;
    var ids := Ordering.Ordered(t.users.Keys);
    forall u
      ensures u in ResetAll(t, ids, now).users <==> u in t.users
      ensures u in t.users ==> ResetAll(t, ids, now).users[u] == AfterCheck(t.users[u], now)
    {
      ResetAllRows(t, ids, now, u);
    }
  }

  lemma NextRowUntouched(t: Tables, ids: seq<int>, now: int, i: nat)
    requires i < |ids| && forall a, b :: 0 <= a < b < |ids| ==> ids[a] < ids[b]
    ensures ids[i] in t.users ==>
              ids[i] in ResetAll(t, ids[..i], now).users && ResetAll(t, ids[..i], now).users[ids[i]] == t.users[ids[i]]
    ensures ResetAll(t, ids[..i + 1], now) == ResetUser(ResetAll(t, ids[..i], now), ids[i], now)
  {
    ResetAllRows(t, ids[..i], now, ids[i]);
    assert ids[..i + 1][..i] == ids[..i];
  }

  lemma NothingChecked(t: Tables, ids: seq<int>, now: int)
    ensures ResetAll(t, ids[..0], now) == t
  {
  }

  /** The hourly check resets every due user, once, and leaves every other row alone. */
  method AutoReset(store: Panel.Store, now: int)
    modifies store
    ensures store.View() == ResetAll(old(store.View()), Ordering.Ordered(old(store.users).Keys), now)
    ensures store.users.Keys == old(store.users).Keys
    ensures forall u :: u in store.users ==>
              store.users[u] ==
                if MonthlyResetDue(now, old(store.users)[u].resetDay, old(store.users)[u].lastReset).Some?
                then old(store.users)[u].(dataUsed := 0, lastReset := now) else old(store.users)[u]
    ensures forall c :: c in store.nodeTraffic <==> c in old(store.nodeTraffic) && !IsDue(old(store.View()), c.0, now)
    ensures forall c :: c in store.nodeTraffic ==> store.nodeTraffic[c] == old(store.nodeTraffic)[c]
    ensures store.View() == old(store.View()).(users := store.users, nodeTraffic := store.nodeTraffic)
  {
    hide ResetUser, ResetAll, MonthlyResetDue, AfterCheck;
    var listed := store.users;
    var ids := Ordering.Ordered(listed.Keys);
    ghost var was := store.View();
    var i := 0;
    NothingChecked(was, ids, now);
    while i < |ids|
      invariant 0 <= i <= |ids|
      invariant store.View() == ResetAll(was, ids[..i], now)
    {
      NextRowUntouched(was, ids, now, i);
      ResetIfDue(store, ids[i], listed[ids[i]], now);
      i := i + 1;
    }
    assert ids[..|ids|] == ids;
    RowsAfter(was, now);
    CellsAfter(was, now);
  }

  /** A row that is due, in these tables. */
  predicate IsDue(t: Tables, u: int, now: int) {
    u in t.users && MonthlyResetDue(now, t.users[u].resetDay, t.users[u].lastReset).Some?
  }

  lemma ResetUserCells(t: Tables, u: int, now: int, c: (int, int))
    ensures var r := ResetUser(t, u, now);
            && (c in r.nodeTraffic <==> c in t.nodeTraffic && !(c.0 == u && IsDue(t, u, now)))
            && (c in r.nodeTraffic ==> r.nodeTraffic[c] == t.nodeTraffic[c])
            && r == t.(users := r.users, nodeTraffic := r.nodeTraffic)
  {
    hide MonthlyResetDue;
  }

  lemma {:induction false} ResetAllCells(t: Tables, ids: seq<int>, now: int, c: (int, int))
    requires forall i, j :: 0 <= i < j < |ids| ==> ids[i] < ids[j]
    ensures var r := ResetAll(t, ids, now);
            && (c in r.nodeTraffic <==> c in t.nodeTraffic && !(c.0 in ids && IsDue(t, c.0, now)))
            && (c in r.nodeTraffic ==> r.nodeTraffic[c] == t.nodeTraffic[c])
            && r == t.(users := r.users, nodeTraffic := r.nodeTraffic)
  {
    if ids != [] {
      hide MonthlyResetDue, ResetUser;
      var rest, last := ids[..|ids| - 1], ids[|ids| - 1];
      ResetUserCells(ResetAll(t, rest, now), last, now, c);
      ResetAllCells(t, rest, now, c);
      ResetAllRows(t, rest, now, last);
      assert ids == rest + [last];
      assert last !in rest;
    }
  }

  /** Due users lose their per-node rows; no other row of that table goes, and no other table changes. */
  lemma CellsAfter(t: Tables, now: int)
    ensures var r := ResetAll(t, Ordering.Ordered(t.users.Keys), now);
            && (forall c :: c in r.nodeTraffic <==> c in t.nodeTraffic && !IsDue(t, c.0, now))
            && (forall c :: c in r.nodeTraffic ==> r.nodeTraffic[c] == t.nodeTraffic[c])
            && r == t.(users := r.users, nodeTraffic := r.nodeTraffic)
  {
    hide ResetAll, MonthlyResetDue;
    var ids := Ordering.Ordered(t.users.Keys);
    ResetAllCells(t, ids, now, (0, 0));
    forall c
      ensures var r := ResetAll(t, ids, now);
              && (c in r.nodeTraffic <==> c in t.nodeTraffic && !IsDue(t, c.0, now))
              && (c in r.nodeTraffic ==> r.nodeTraffic[c] == t.nodeTraffic[c])
    {
      ResetAllCells(t, ids, now, c);
    }
  }

  /** A due user is left with an empty quota and the time of the check; any other as it was. */
  lemma RowsAfter(t: Tables, now: int)
    ensures var r := ResetAll(t, Ordering.Ordered(t.users.Keys), now);
            && r.users.Keys == t.users.Keys
            && forall u :: u in t.users ==>
                 r.users[u] ==
                   if MonthlyResetDue(now, t.users[u].resetDay, t.users[u].lastReset).Some?
                   then t.users[u].(dataUsed := 0, lastReset := now) else t.users[u]
  {
    hide ResetAll, MonthlyResetDue;
    AllRowsChecked(t, now);
  }

  // ---- checks among all other uses of the tables ----

  datatype Event = CheckAt(now: int) | Store(op: Op)

  function Next(t: Tables, ev: Event): Tables {
    match ev
    case CheckAt(now) => ResetAll(t, Ordering.Ordered(t.users.Keys), now)
    case Store(op) => Apply(t, op)
  }

  function Run(t: Tables, evs: seq<Event>): Tables {
    if evs == [] then t else Next(Run(t, evs[..|evs| - 1]), evs[|evs| - 1])
  }

  /** The times of the checks in a run. */
  function Times(evs: seq<Event>): seq<int> {
    if evs == [] then []
    else if evs[|evs| - 1].CheckAt? then Times(evs[..|evs| - 1]) + [evs[|evs| - 1].now]
    else Times(evs[..|evs| - 1])
  }

  /** Whether a step resets the user: its usage goes to zero and the time is stamped. */
  predicate ResetsUser(t: Tables, ev: Event, u: int) {
    && ev.CheckAt? && u in t.users && u in Next(t, ev).users
    && Next(t, ev).users[u] == t.users[u].(dataUsed := 0, lastReset := ev.now)
    && MonthlyResetDue(ev.now, t.users[u].resetDay, t.users[u].lastReset).Some?
  }

  /** How often a run resets the user. */
  function Resets(t: Tables, evs: seq<Event>, u: int): nat {
    if evs == [] then 0
    else Resets(t, evs[..|evs| - 1], u) + (if ResetsUser(Run(t, evs[..|evs| - 1]), evs[|evs| - 1], u) then 1 else 0)
  }

  /** The user is neither edited nor deleted, and nothing else stamps it. */
  predicate LeavesSchedule(ev: Event, u: int) {
    ev.Store? ==> !((ev.op.Update? || ev.op.Stamp? || ev.op.RemoveUser?) && ev.op.user == u)
  }

  lemma ApplyKeepsSchedule(t: Tables, op: Op, u: int)
    requires u in t.users && u < t.nextUser && LeavesSchedule(Store(op), u)
    ensures u in Apply(t, op).users && u < Apply(t, op).nextUser
    ensures Apply(t, op).users[u].resetDay == t.users[u].resetDay
    ensures Apply(t, op).users[u].lastReset == t.users[u].lastReset
  {
    hide AddTo, WithoutRow, WithoutColumn, Taken;
  }

  lemma {:induction false} ResetAllKeepsNext(t: Tables, ids: seq<int>, now: int)
    ensures ResetAll(t, ids, now).nextUser == t.nextUser
  {
    if ids != [] {
      ResetAllKeepsNext(t, ids[..|ids| - 1], now);
    }
  }

  lemma StepFollows(t: Tables, ev: Event, u: int, resets: nat)
    requires u in t.users && u < t.nextUser && LeavesSchedule(ev, u)
    ensures var r := Next(t, ev);
            && u in r.users && u < r.nextUser && r.users[u].resetDay == t.users[u].resetDay
            && Progress(r.users[u].lastReset, resets + if ResetsUser(t, ev, u) then 1 else 0) ==
               if ev.CheckAt? then Check(Progress(t.users[u].lastReset, resets), ev.now, t.users[u].resetDay)
               else Progress(t.users[u].lastReset, resets)
  {
    hide MonthlyResetDue, Apply, ResetAll, Ordering.Ordered;
    match ev
    case CheckAt(now) =>
      RowsAfter(t, now);
      ResetAllKeepsNext(t, Ordering.Ordered(t.users.Keys), now);
    case Store(op) => ApplyKeepsSchedule(t, op, u);
  }

  lemma LastEvent(t: Tables, evs: seq<Event>, u: int, resetDay: int, initial: int)
    requires evs != []
    ensures var rest, last := evs[..|evs| - 1], evs[|evs| - 1];
            && Run(t, evs) == Next(Run(t, rest), last)
            && Resets(t, evs, u) == Resets(t, rest, u) + (if ResetsUser(Run(t, rest), last, u) then 1 else 0)
            && Checks(Times(evs), resetDay, initial) ==
               if last.CheckAt? then Check(Checks(Times(rest), resetDay, initial), last.now, resetDay)
               else Checks(Times(rest), resetDay, initial)
  {
    hide Next, ResetsUser, Check;
    var rest, last := evs[..|evs| - 1], evs[|evs| - 1];
    if last.CheckAt? {
      assert (Times(rest) + [last.now])[..|Times(rest)|] == Times(rest);
    }
  }

  lemma {:induction false} RunFollows(t: Tables, evs: seq<Event>, u: int)
    requires u in t.users && u < t.nextUser && forall i :: 0 <= i < |evs| ==> LeavesSchedule(evs[i], u)
    ensures var r := Run(t, evs);
            && u in r.users && u < r.nextUser && r.users[u].resetDay == t.users[u].resetDay
            && Checks(Times(evs), t.users[u].resetDay, t.users[u].lastReset) ==
               Progress(r.users[u].lastReset, Resets(t, evs, u))
  {
    if evs != [] {
      var rest, last := evs[..|evs| - 1], evs[|evs| - 1];
      LastEvent(t, evs, u, t.users[u].resetDay, t.users[u].lastReset);
      hide *;
      RunFollows(t, rest, u);
      StepFollows(Run(t, rest), last, u, Resets(t, rest, u));
    }
  }

  /**
   Once a month and no more: in any run of hourly checks over the panel's tables, with
   reports, resets by hand and every other operation in between, and a clock that
   never goes back, a user that is not edited is reset as often as there are distinct
   months with a check at or after their reset instant that lies after its last
   earlier reset.
   */
  lemma ResetOncePerMonth(t: Tables, evs: seq<Event>, u: int)
    requires u in t.users && u < t.nextUser && t.users[u].resetDay >= 1
    requires forall i :: 0 <= i < |evs| ==> LeavesSchedule(evs[i], u)
    requires NonDecreasing(Times(evs))
    ensures Resets(t, evs, u) == |ResetMonths(Times(evs), t.users[u].resetDay, t.users[u].lastReset)|
  {
    hide Run, Checks, ResetMonths, Resets;
    RunFollows(t, evs, u);
    var times := Times(evs);
    ResetCount(times, t.users[u].resetDay, t.users[u].lastReset, if times == [] then 0 else times[|times| - 1]);
  }
}
