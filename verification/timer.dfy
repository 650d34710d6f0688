/** libuv's timers: handles kept in the heap by timeout and, for equal timeouts, by
    the order in which they were started. */
module Timers {
  import opened Sequences
  import opened Heap

  const U64: nat := 0x1_0000_0000_0000_0000
  const INT_MAX: nat := 0x7fff_ffff

  datatype Callback = NoCallback | Callback(id: nat)

  datatype Status = Ok | Invalid  // 0 and UV_EINVAL

  /** The fields of uv_timer_t besides its heap node. */
  datatype Timer = Timer(timeout: nat, startId: nat, repeat: nat, callback: Callback, active: bool, closing: bool)

  type Handle = Node<Timer>
  type Handle? = Node?<Timer>

  /** timer_less_than. */
  predicate Before(a: Timer, b: Timer) {
    if a.timeout < b.timeout then true
    else if b.timeout < a.timeout then false
    else a.startId < b.startId
  }

  lemma BeforeIsStrictWeakOrder()
    ensures StrictWeakOrder(Before)
  {
    forall a, b, c ensures WeakOrderLaws(Before, a, b, c) {
    }
  }

  /** The sum that uv_timer_start forms in 64 bits and corrects if it wrapped. */
  function Deadline(time: nat, timeout: nat): (r: nat)
    requires time < U64 && timeout < U64
    ensures r == if time + timeout < U64 then time + timeout else U64 - 1
    ensures r > time <==> timeout > 0 && time < U64 - 1
  {
    var sum := (time + timeout) % U64;
    if sum < timeout then U64 - 1 else sum
  }

  /** What a turn of uv__run_timers leaves of a timer. */
  function Rearmed(t: Timer, time: nat, startId: nat): (r: Timer)
    requires time < U64 && t.repeat < U64
  {
    if t.repeat == 0 then t.(active := false)
    else t.(timeout := Deadline(time, t.repeat), startId := startId)
  }

  ghost predicate SameRank(a: Timer, b: Timer) {
    a.timeout == b.timeout && a.startId == b.startId
  }

  /** The order of the heap is a matter of timeouts and start ids only. */
  lemma OrderSurvives(k: seq<Timer>, k': seq<Timer>)
    requires |k| == |k'| && HeapOrder(Before, k)
    requires forall i :: 0 <= i < |k| ==> SameRank(k[i], k'[i])
    ensures HeapOrder(Before, k')
  {
    forall i: nat | i < |k'| ensures OrderedAt(Before, k', i) {
      assert OrderedAt(Before, k, i);
      assert SameRank(k[i], k'[i]) && (i > 0 ==> SameRank(k[(i - 1) / 2], k'[(i - 1) / 2]));
    }
  }

  ghost predicate Due(t: Timer, time: nat) {
    t.active && t.timeout <= time
  }

  /** Whether firing leaves the timer due: only a repeating timer, at the end of time. */
  lemma RearmedIsDue(t: Timer, time: nat, startId: nat)
    requires time < U64 && t.repeat < U64 && Due(t, time)
    ensures Due(Rearmed(t, time, startId), time) <==> t.repeat > 0 && time == U64 - 1
  {
  }

  // ---------- Runs of uv__run_timers, on what the handles hold ----------

  type Table = map<Handle, Timer>

  ghost predicate InRange(m: Table) {
    forall h :: h in m ==> m[h].timeout < U64 && m[h].startId < U64 && m[h].repeat < U64
  }

  /** No active timer comes before h. */
  ghost predicate First(m: Table, h: Handle)
    requires h in m
  {
    forall x :: x in m && m[x].active ==> !Before(m[x], m[h])
  }

  /** One turn of the loop: h fires first of all, or is null and nothing is due. */
  ghost predicate Turned(m: Table, m': Table, time: nat, counter: nat, counter': nat, h: Handle?)
    requires time < U64 && InRange(m)
  {
    if h == null then
      m' == m && counter' == counter && forall x :: x in m ==> !Due(m[x], time)
    else
      && h in m && Due(m[h], time) && First(m, h)
      && m' == m[h := Rearmed(m[h], time, counter)]
      && counter' == if m[h].repeat == 0 then counter else Next(counter)
  }

  /** How many of the timers repeat, each of which takes a new start id. */
  ghost function Repeating(was: Table, s: seq<Handle>): nat {
    if s == [] then 0
    else Repeating(was, s[..|s| - 1]) + if s[|s| - 1] in was && was[s[|s| - 1]].repeat > 0 then 1 else 0
  }

  lemma RepeatingSnoc(was: Table, s: seq<Handle>, h: Handle)
    ensures Repeating(was, s + [h]) == Repeating(was, s) + if h in was && was[h].repeat > 0 then 1 else 0
  {
    assert (s + [h])[..|s|] == s;
  }

  /** The i-th timer to fire was due and is rearmed, the start ids counting on. */
  ghost predicate FiredAt(was: Table, now: Table, fired: seq<Handle>, i: nat, time: nat, counter: nat)
    requires i < |fired| && time < U64 && InRange(was)
  {
    && fired[i] in was && fired[i] in now
    && Due(was[fired[i]], time)
    && now[fired[i]] == Rearmed(was[fired[i]], time, (counter + Repeating(was, fired[..i])) % U64)
  }

  /** No timer that fires later, or is due and has not fired, comes before the i-th. */
  ghost predicate InTurn(was: Table, fired: seq<Handle>, i: nat, time: nat)
    requires i < |fired|
  {
    fired[i] in was
    && forall x :: x in was && x !in fired[..i + 1] && Due(was[x], time) ==> !Before(was[x], was[fired[i]])
  }

  /** The timers in fired, and no others, have fired: once each and in order. */
  ghost predicate Ran(was: Table, now: Table, fired: seq<Handle>, time: nat, counter: nat, counter': nat)
    requires time < U64 && InRange(was)
  {
    && now.Keys == was.Keys && Distinct(fired)
    && (forall i: nat :: i < |fired| ==> FiredAt(was, now, fired, i, time, counter))
    && (forall i: nat :: i < |fired| ==> InTurn(was, fired, i, time))
    && (forall x :: x in was && x !in fired ==> now[x] == was[x])
    && counter' == (counter + Repeating(was, fired)) % U64
  }

  /** Time is not at its end, or no active timer repeats. */
  ghost predicate CanEnd(m: Table, time: nat) {
    time < U64 - 1 || forall h :: h in m && m[h].active ==> m[h].repeat == 0
  }

  lemma FiredIsNotDue(was: Table, now: Table, fired: seq<Handle>, time: nat, counter: nat, counter': nat, h: Handle)
    requires time < U64 && InRange(was) && CanEnd(was, time) && Ran(was, now, fired, time, counter, counter')
    requires h in fired
    ensures h in now && !Due(now[h], time)
  {
    var i: nat :| i < |fired| && fired[i] == h;
    assert FiredAt(was, now, fired, i, time, counter);
  }

  lemma FiredAtStill(was: Table, now: Table, fired: seq<Handle>, time: nat, counter: nat, h: Handle, t: Timer, i: nat)
    requires time < U64 && InRange(was) && i < |fired| && FiredAt(was, now, fired, i, time, counter) && h !in fired
    ensures FiredAt(was, now[h := t], fired + [h], i, time, counter)
  {
    assert (fired + [h])[..i] == fired[..i];
    assert fired[i] != h;
  }

  lemma InTurnStill(was: Table, fired: seq<Handle>, time: nat, h: Handle, i: nat)
    requires i < |fired| && InTurn(was, fired, i, time)
    ensures InTurn(was, fired + [h], i, time)
  {
    assert (fired + [h])[..i + 1] == fired[..i + 1];
  }

  lemma FiresInTurn(was: Table, now: Table, fired: seq<Handle>, time: nat, h: Handle)
    requires h in now && h !in fired && now.Keys == was.Keys && First(now, h)
    requires forall x :: x in was && x !in fired ==> now[x] == was[x]
    ensures InTurn(was, fired + [h], |fired|, time)
  {
    assert (fired + [h])[..|fired| + 1] == fired + [h];
  }

  /** The 64-bit counter of start ids, which wraps around. */
  function Next(counter: nat): (next: nat)
    ensures next < U64
  {
    (counter + 1) % U64
  }

  lemma NextWraps(n: nat)
    ensures Next(n % U64) == Next(n)
  {
  }

  lemma FiresAt(was: Table, now: Table, fired: seq<Handle>, time: nat, counter: nat, c: nat,
          now': Table, c': nat, h: Handle)
    requires time < U64 && InRange(was) && InRange(now) && now.Keys == was.Keys
    requires Turned(now, now', time, c, c', h) && now[h] == was[h]
    requires c == (counter + Repeating(was, fired)) % U64
    ensures FiredAt(was, now', fired + [h], |fired|, time, counter)
    ensures c' == (counter + Repeating(was, fired + [h])) % U64
  {
    hide Repeating, Rearmed, First, InRange;
    RepeatingSnoc(was, fired, h);
    NextWraps(counter + Repeating(was, fired));
    assert (fired + [h])[..|fired|] == fired;
  }

  lemma RanOn(was: Table, now: Table, fired: seq<Handle>, time: nat, counter: nat, c: nat,
          now': Table, c': nat, h: Handle)
    requires time < U64 && InRange(was) && InRange(now) && CanEnd(was, time) && Ran(was, now, fired, time, counter, c)
    requires Turned(now, now', time, c, c', h)
    ensures h !in fired && Ran(was, now', fired + [h], time, counter, c')
  {
    hide Repeating, InTurn, FiredAt, First, Rearmed, InRange, CanEnd, Due;
    if h in fired {
      FiredIsNotDue(was, now, fired, time, counter, c, h);
    }
    FiresAt(was, now, fired, time, counter, c, now', c', h);
    FiresInTurn(was, now, fired, time, h);
    forall i: nat | i < |fired| + 1
      ensures FiredAt(was, now', fired + [h], i, time, counter) && InTurn(was, fired + [h], i, time)
    {
      if i < |fired| {
        FiredAtStill(was, now, fired, time, counter, h, now'[h], i);
        InTurnStill(was, fired, time, h, i);
      }
    }
  }

  lemma RanNothing(was: Table, time: nat, counter: nat)
    requires time < U64 && InRange(was) && counter < U64
    ensures Ran(was, was, [], time, counter, counter)
  {
  }

  /** When a run ends, the timers that have fired are those that were due. */
  lemma RanAll(was: Table, now: Table, fired: seq<Handle>, time: nat, counter: nat, c: nat)
    requires time < U64 && InRange(was) && Ran(was, now, fired, time, counter, c)
    requires forall x :: x in now ==> !Due(now[x], time)
    ensures forall x :: x in fired <==> x in was && Due(was[x], time)
  {
    forall x ensures x in fired <==> x in was && Due(was[x], time) {
      if x in fired {
        var i: nat :| i < |fired| && fired[i] == x;
        assert FiredAt(was, now, fired, i, time, counter);
      }
    }
  }

  /** What firing at this time makes of a timer: a repeating one is due again after its
      repeat, or at the end of time, and another one is only stopped. */
  predicate Fired(was: Timer, now: Timer, time: nat) {
    if was.repeat == 0 then
      !now.active && now == was.(active := false)
    else
      && now.timeout == (if time + was.repeat < U64 then time + was.repeat else U64 - 1)
      && now.active && now.repeat == was.repeat && now.callback == was.callback && now.closing == was.closing
  }

  lemma RearmedFired(t: Timer, time: nat, startId: nat)
    requires time < U64 && t.repeat < U64 && t.active
    ensures Fired(t, Rearmed(t, time, startId), time)
  {
  }

  lemma FiredTimers(was: Table, now: Table, fired: seq<Handle>, time: nat, counter: nat, c: nat)
    requires time < U64 && InRange(was) && Ran(was, now, fired, time, counter, c)
    ensures now.Keys == was.Keys && (forall x :: x in fired ==> x in was && Fired(was[x], now[x], time))
    ensures forall x :: x in was && x !in fired ==> now[x] == was[x]
  {
    hide Rearmed, Fired;
    forall x | x in fired ensures x in was && Fired(was[x], now[x], time) {
      var i: nat :| i < |fired| && fired[i] == x;
      assert FiredAt(was, now, fired, i, time, counter);
      RearmedFired(was[x], time, (counter + Repeating(was, fired[..i])) % U64);
    }
  }

  /** A repeating timer that fired at time t1 and is left alone fires again in a run at a
      later time t2 exactly if its repeat has passed, or at the end of time. */
  lemma FiresAgainExactly(m1: Table, m1': Table, fired1: seq<Handle>, t1: nat, c1: nat, c1': nat,
          m2: Table, m2': Table, fired2: seq<Handle>, t2: nat, c2: nat, c2': nat, h: Handle)
    requires t1 <= t2 < U64 && InRange(m1) && InRange(m2)
    requires Ran(m1, m1', fired1, t1, c1, c1') && h in fired1 && h in m1 && m1[h].repeat > 0
    requires Ran(m2, m2', fired2, t2, c2, c2') && forall x :: x in m2' ==> !Due(m2'[x], t2)
    requires h in m1' && h in m2 && m2[h] == m1'[h]
    ensures h in fired2 <==> t2 >= t1 + m1[h].repeat || t2 == U64 - 1
  {
    FiredTimers(m1, m1', fired1, t1, c1, c1');
    RanAll(m2, m2', fired2, t2, c2, c2');
    hide Ran, InRange;
  }

  /** As long as the counter has not wrapped, active timers have distinct start ids. */
  ghost predicate FreshIds(m: Table, counter: nat) {
    && (forall x :: x in m && m[x].active ==> m[x].startId < counter)
    && (forall x, y :: x in m && y in m && m[x].active && m[y].active && m[x].startId == m[y].startId ==> x == y)
  }

  lemma {:induction false} RepeatingMonotone(was: Table, s: seq<Handle>, i: nat, j: nat)
    requires i <= j <= |s|
    ensures Repeating(was, s[..i]) <= Repeating(was, s[..j])
    decreases j
  {
    if i < j {
      RepeatingMonotone(was, s, i, j - 1);
      assert s[..j][..j - 1] == s[..j - 1];
    }
  }

  /** A repeating timer that fired has an id between the counters before and after. */
  lemma FiredId(was: Table, now: Table, fired: seq<Handle>, time: nat, counter: nat, c: nat, i: nat)
    requires time < U64 && InRange(was) && Ran(was, now, fired, time, counter, c) && i < |fired|
    requires counter + Repeating(was, fired) < U64 && fired[i] in now && now[fired[i]].active
    ensures now[fired[i]].startId == counter + Repeating(was, fired[..i])
    ensures Repeating(was, fired[..i + 1]) == Repeating(was, fired[..i]) + 1
    ensures now[fired[i]].startId < c == counter + Repeating(was, fired)
  {
    hide *;
    FiredRecord(was, now, fired, time, counter, c, i);
    assert fired[..i + 1] == fired[..i] + [fired[i]] && fired[..|fired|] == fired;
    RepeatingSnoc(was, fired[..i], fired[i]);
    RepeatingMonotone(was, fired, i + 1, |fired|);
    RanCounter(was, now, fired, time, counter, c);
    NoWrap(counter + Repeating(was, fired[..i]));
    NoWrap(counter + Repeating(was, fired));
  }

  lemma NoWrap(n: nat)
    requires n < U64
    ensures n % U64 == n
  {
  }

  lemma FiredRecord(was: Table, now: Table, fired: seq<Handle>, time: nat, counter: nat, c: nat, i: nat)
    requires time < U64 && InRange(was) && Ran(was, now, fired, time, counter, c) && i < |fired|
    ensures fired[i] in was && fired[i] in now
    ensures now[fired[i]].active ==>
              was[fired[i]].repeat > 0 && now[fired[i]].startId == (counter + Repeating(was, fired[..i])) % U64
  {
    assert FiredAt(was, now, fired, i, time, counter);
    hide Ran, Repeating, Deadline;
  }

  lemma RanCounter(was: Table, now: Table, fired: seq<Handle>, time: nat, counter: nat, c: nat)
    requires time < U64 && InRange(was) && Ran(was, now, fired, time, counter, c)
    ensures c == (counter + Repeating(was, fired)) % U64 && now.Keys == was.Keys
    ensures forall x :: x in was && x !in fired ==> now[x] == was[x]
  {
  }

  lemma FiredIdsApart(was: Table, now: Table, fired: seq<Handle>, time: nat, counter: nat, c: nat, i: nat, j: nat)
    requires time < U64 && InRange(was) && Ran(was, now, fired, time, counter, c) && i < j < |fired|
    requires counter + Repeating(was, fired) < U64
    requires fired[i] in now && fired[j] in now && now[fired[i]].active && now[fired[j]].active
    ensures now[fired[i]].startId < now[fired[j]].startId
  {
    hide Ran, Repeating;
    FiredId(was, now, fired, time, counter, c, i);
    FiredId(was, now, fired, time, counter, c, j);
    RepeatingMonotone(was, fired, i + 1, j);
  }

  /** A run keeps the ids fresh if the counter does not wrap in it. */
  lemma RanKeepsFreshIds(was: Table, now: Table, fired: seq<Handle>, time: nat, counter: nat, c: nat)
    requires time < U64 && InRange(was) && Ran(was, now, fired, time, counter, c)
    requires FreshIds(was, counter) && counter + Repeating(was, fired) < U64
    ensures FreshIds(now, c)
  {
    RanCounter(was, now, fired, time, counter, c);
    hide Ran, Repeating;
    forall x | x in now && now[x].active ensures now[x].startId < c && (x in fired ==> counter <= now[x].startId) {
      if x in fired {
        var i: nat :| i < |fired| && fired[i] == x;
        FiredId(was, now, fired, time, counter, c, i);
      }
    }
    forall x, y | x in now && y in now && now[x].active && now[y].active && now[x].startId == now[y].startId ensures x == y {
      if x in fired && y in fired && x != y {
        var i: nat, j: nat :| i < |fired| && j < |fired| && fired[i] == x && fired[j] == y;
        if i < j {
          FiredIdsApart(was, now, fired, time, counter, c, i, j);
        } else {
          FiredIdsApart(was, now, fired, time, counter, c, j, i);
        }
      }
    }
  }

  /** Stopping and the like: an active timer was active before, with the same id. */
  predicate KeepsId(m: Table, h: Handle, t: Timer) {
    t.active ==> h in m && m[h].active && t.startId == m[h].startId
  }

  lemma UpdateKeepsFreshIds(m: Table, h: Handle, t: Timer, counter: nat)
    requires FreshIds(m, counter) && KeepsId(m, h, t)
    ensures FreshIds(m[h := t], counter)
  {
  }

  /** What the loop does to the table: a handle is initialised, stopped, closed or given a
      repeat, a timer is started, due timers are run. */
  datatype Operation =
    | Update(h: Handle, t: Timer)
    | Start(h: Handle, t: Timer)
    | Run(time: nat, fired: seq<Handle>)

  ghost function Starts(m: Table, op: Operation): nat {
    match op
    case Update(_, _) => 0
    case Start(_, _) => 1
    case Run(_, fired) => Repeating(m, fired)
  }

  ghost predicate Performed(m: Table, m': Table, counter: nat, counter': nat, op: Operation) {
    match op
    case Update(h, t) => KeepsId(m, h, t) && m' == m[h := t] && counter' == counter
    case Start(h, t) => t.startId == counter && m' == m[h := t] && counter' == Next(counter)
    case Run(time, fired) => time < U64 && InRange(m) && Ran(m, m', fired, time, counter, counter')
  }

  lemma UpdatedTable(m: Table, m': Table, h: Handle)
    requires h in m' && m'.Keys == m.Keys + {h} && forall x :: x in m && x != h ==> m'[x] == m[x]
    ensures m' == m[h := m'[h]]
  {
  }

  lemma UpdatePerformed(m: Table, m': Table, counter: nat, h: Handle)
    requires h in m' && m'.Keys == m.Keys + {h} && forall x :: x in m && x != h ==> m'[x] == m[x]
    requires KeepsId(m, h, m'[h])
    ensures Performed(m, m', counter, counter, Update(h, m'[h]))
  {
    UpdatedTable(m, m', h);
  }

  lemma StartPerformed(m: Table, m': Table, counter: nat, counter': nat, h: Handle, started: bool)
    requires h in m' && m'.Keys == m.Keys + {h} && forall x :: x in m && x != h ==> m'[x] == m[x]
    requires if started then m'[h].startId == counter && counter' == Next(counter)
             else h in m && m'[h] == m[h] && counter' == counter
    ensures Performed(m, m', counter, counter', if started then Operation.Start(h, m'[h]) else Update(h, m'[h]))
  {
    UpdatedTable(m, m', h);
  }

  lemma OperationKeepsFreshIds(m: Table, m': Table, counter: nat, counter': nat, op: Operation)
    requires Performed(m, m', counter, counter', op) && FreshIds(m, counter) && counter + Starts(m, op) < U64
    ensures FreshIds(m', counter') && counter' == counter + Starts(m, op)
  {
    hide FreshIds, Ran, InRange, Repeating;
    match op
    case Update(h, t) => UpdateKeepsFreshIds(m, h, t, counter);
    case Start(h, t) => StartKeepsFreshIds(m, h, t, counter);
    case Run(time, fired) =>
      RanKeepsFreshIds(m, m', fired, time, counter, counter');
      RanCounter(m, m', fired, time, counter, counter');
  }

  /** How many timers the first k operations start. */
  ghost function Started(tables: seq<Table>, ops: seq<Operation>, k: nat): nat
    requires k <= |ops| <= |tables|
  {
    if k == 0 then 0 else Started(tables, ops, k - 1) + Starts(tables[k - 1], ops[k - 1])
  }

  /** From a new loop on, the ids are fresh in every state that is reached with fewer than
      2^64 starts. */
  lemma {:induction false} FreshUntilWrap(tables: seq<Table>, counters: seq<nat>, ops: seq<Operation>, k: nat)
    requires |tables| == |counters| == |ops| + 1 && tables[0] == map[] && counters[0] == 0
    requires forall i :: 0 <= i < |ops| ==> Performed(tables[i], tables[i + 1], counters[i], counters[i + 1], ops[i])
    requires k <= |ops| && Started(tables, ops, k) < U64
    ensures FreshIds(tables[k], counters[k]) && counters[k] == Started(tables, ops, k)
  {
    if k > 0 {
      hide Performed, FreshIds, Starts;
      FreshUntilWrap(tables, counters, ops, k - 1);
      OperationKeepsFreshIds(tables[k - 1], tables[k], counters[k - 1], counters[k], ops[k - 1]);
    }
  }

  lemma StartKeepsFreshIds(m: Table, h: Handle, t: Timer, counter: nat)
    requires FreshIds(m, counter) && counter + 1 < U64 && t.startId == counter
    ensures FreshIds(m[h := t], Next(counter))
  {
  }

  /** Timers fire in the order of their timeouts and start ids. */
  lemma FiredInOrder(was: Table, now: Table, fired: seq<Handle>, time: nat, counter: nat, c: nat, i: nat, j: nat)
    requires time < U64 && InRange(was) && Ran(was, now, fired, time, counter, c) && i < j < |fired|
    ensures fired[i] in was && fired[j] in was
    ensures var a, b := was[fired[i]], was[fired[j]];
            && a.timeout <= b.timeout
            && (a.timeout == b.timeout ==> a.startId <= b.startId && (FreshIds(was, counter) ==> a.startId < b.startId))
  {
    assert FiredAt(was, now, fired, i, time, counter) && FiredAt(was, now, fired, j, time, counter);
    assert InTurn(was, fired, i, time);
    assert fired[j] !in fired[..i + 1];
  }

  /** At the end of time a repeating timer keeps the loop turning for ever. */
  lemma NeverEnds(m: Table, m': Table, counter: nat, counter': nat, h: Handle?)
    requires InRange(m) && !CanEnd(m, U64 - 1) && Turned(m, m', U64 - 1, counter, counter', h)
    ensures h != null && !CanEnd(m', U64 - 1)
  {
    var x :| x in m && m[x].active && m[x].repeat > 0;
    assert Due(m[x], U64 - 1);
    assert x in m' && m'[x].active && m'[x].repeat > 0;
  }

  class Loop {
    var time: nat
    var timerCounter: nat
    const heap: Heap<Timer>
    ghost var handles: set<Handle>  // initialised on this loop

    constructor (time: nat)
      requires time < U64
      ensures Valid() && handles == {} && timerCounter == 0 && this.time == time
    {
      BeforeIsStrictWeakOrder();
      this.time, timerCounter, handles := time, 0, {};
      heap := new Heap(Before);
    }

    /** A handle is active exactly if it is in the heap. */
    ghost predicate Fits(h: Handle)
      reads this, heap, h`data
    {
      && (h.data.active <==> h in heap.nodes)
      && (h.data.active ==> h.data.callback.Callback? && !h.data.closing)
      && h.data.timeout < U64 && h.data.startId < U64 && h.data.repeat < U64
    }

    ghost predicate Valid()
      reads this, heap, heap.nodes, handles`data
    {
      && heap.Valid() && heap.less == Before
      && time < U64 && timerCounter < U64
      && (forall h :: h in heap.nodes ==> h in handles)
      && forall h :: h in handles ==> Fits(h)
    }

    /** Writing the flags and such of one handle does not disturb the heap. */
    method Set(handle: Handle, t: Timer)
      requires heap.Valid() && heap.less == Before && (handle in heap.nodes ==> SameRank(t, handle.data))
      modifies handle`data
      ensures heap.Valid() && handle.data == t
    {
      ghost var k := Keys(heap.nodes);
      assert forall i :: 0 <= i < |k| ==> k[i] == heap.nodes[i].data;
      handle.data := t;
      hide StrictWeakOrder, HeapOrder, Keys, Linked;
      ghost var k' := Keys(heap.nodes);
      OrderSurvives(k, k');
    }

    /** uv_timer_init. */
    method Init(handle: Handle)
      requires Valid() && handle !in heap.nodes && handle.data.timeout < U64 && handle.data.startId < U64
      modifies this`handles, handle`data
      ensures Valid() && handles == old(handles) + {handle}
      ensures handle.data == old(handle.data).(repeat := 0, callback := NoCallback, active := false, closing := false)
      ensures Performed(old(Timers()), Timers(), old(timerCounter), timerCounter, Update(handle, handle.data))
    {
      Set(handle, handle.data.(repeat := 0, callback := NoCallback, active := false, closing := false));
      handles := handles + {handle};
    }

    /** uv_timer_stop. */
    method Stop(handle: Handle)
      requires Valid() && handle in handles && heap.nelts < LIMIT
      modifies handle`data
      modifies heap`min, heap`nelts, heap`nodes, handles`left, handles`right, handles`parent
      ensures Valid()
      ensures handle.data == old(handle.data).(active := false)
      ensures forall h :: h in heap.nodes <==> h in old(heap.nodes) && h != handle
      ensures heap.nelts <= old(heap.nelts) && (old(handle.data.active) ==> heap.nelts == old(heap.nelts) - 1)
      ensures Performed(old(Timers()), Timers(), old(timerCounter), timerCounter, Update(handle, handle.data))
    {
      hide StrictWeakOrder, HeapOrder, Linked, Keys, Performed;
      ghost var was := Timers();
      if !handle.data.active {
        UpdatePerformed(was, was, timerCounter, handle);
        return;
      }
      heap.Remove(handle);
      Set(handle, handle.data.(active := false));
      UpdatePerformed(was, Timers(), timerCounter, handle);
    }

    /** Valid but for one handle that is not in the heap. */
    ghost predicate ValidBut(handle: Handle)
      reads this, heap, heap.nodes, handles`data
    {
      && heap.Valid() && heap.less == Before
      && time < U64 && timerCounter < U64
      && handle !in heap.nodes && (forall h :: h in heap.nodes ==> h in handles)
      && forall h :: h in handles && h != handle ==> Fits(h)
    }

    /** The handle goes into the heap and becomes active. */
    method PutIn(handle: Handle)
      requires ValidBut(handle) && handle in handles && heap.nelts + 1 < LIMIT
      requires handle.data.callback.Callback? && !handle.data.closing
      requires handle.data.timeout < U64 && handle.data.startId < U64 && handle.data.repeat < U64
      modifies handle`data
      modifies heap`min, heap`nelts, heap`nodes, handles`left, handles`right, handles`parent
      ensures Valid() && handle.data == old(handle.data).(active := true)
      ensures forall h :: h in heap.nodes <==> h in old(heap.nodes) || h == handle
      ensures heap.nelts == old(heap.nelts) + 1
    {
      hide StrictWeakOrder, HeapOrder, Linked, Keys;
      heap.Insert(handle);
      Set(handle, handle.data.(active := true));
    }

    /** uv_timer_start once its arguments are checked. */
    method Arm(handle: Handle, cb: Callback, timeout: nat, repeat: nat)
      requires Valid() && handle in handles && heap.nelts + 1 < LIMIT && timeout < U64 && repeat < U64
      requires !handle.data.closing && cb != NoCallback
      modifies this`timerCounter, handle`data
      modifies heap`min, heap`nelts, heap`nodes, handles`left, handles`right, handles`parent
      ensures Valid()
      ensures handle.data == Timer(Deadline(time, timeout), old(timerCounter), repeat, cb, true, false)
      ensures timerCounter == Next(old(timerCounter))
      ensures forall h :: h in heap.nodes <==> h in old(heap.nodes) || h == handle
      ensures heap.nelts <= old(heap.nelts) + if old(handle.data.active) then 0 else 1
    {
      hide StrictWeakOrder, HeapOrder, Linked, Keys, Performed, Deadline, Next;
      if handle.data.active {
        Stop(handle);
      }
      Set(handle, handle.data.(callback := cb, timeout := Deadline(time, timeout), repeat := repeat, startId := timerCounter));
      timerCounter := Next(timerCounter);
      PutIn(handle);
    }

    /** uv_timer_start. */
    method Start(handle: Handle, cb: Callback, timeout: nat, repeat: nat) returns (status: Status)
      requires Valid() && handle in handles && heap.nelts + 1 < LIMIT && timeout < U64 && repeat < U64
      modifies this`timerCounter, handle`data
      modifies heap`min, heap`nelts, heap`nodes, handles`left, handles`right, handles`parent
      ensures Valid()
      ensures status == Invalid <==> old(handle.data.closing) || cb == NoCallback
      ensures status == Invalid ==> handle.data == old(handle.data) && timerCounter == old(timerCounter)
                                    && heap.nodes == old(heap.nodes)
      ensures status == Ok ==>
        && handle.data == Timer(Deadline(time, timeout), old(timerCounter), repeat, cb, true, false)
        && timerCounter == Next(old(timerCounter))
        && forall h :: h in heap.nodes <==> h in old(heap.nodes) || h == handle
      ensures Performed(old(Timers()), Timers(), old(timerCounter), timerCounter,
                        if status == Ok then Operation.Start(handle, handle.data) else Update(handle, handle.data))
      ensures heap.nelts <= old(heap.nelts) + if old(handle.data.active) then 0 else 1
    {
      hide StrictWeakOrder, HeapOrder, Linked, Keys, Performed;
      ghost var was, counter := Timers(), timerCounter;
      if handle.data.closing || cb == NoCallback {
        StartPerformed(was, Timers(), counter, timerCounter, handle, false);
        return Invalid;
      }
      Arm(handle, cb, timeout, repeat);
      StartPerformed(was, Timers(), counter, timerCounter, handle, true);
      return Ok;
    }

    /** uv_timer_again. */
    method Again(handle: Handle) returns (status: Status)
      requires Valid() && handle in handles && heap.nelts + 1 < LIMIT
      modifies this`timerCounter, handle`data
      modifies heap`min, heap`nelts, heap`nodes, handles`left, handles`right, handles`parent
      ensures Valid()
      ensures status == Invalid <==> old(handle.data.callback) == NoCallback
      ensures var t := old(handle.data);
              if t.callback == NoCallback || t.repeat == 0 then
                handle.data == t && timerCounter == old(timerCounter) && heap.nodes == old(heap.nodes)
              else if t.closing then
                handle.data == t && timerCounter == old(timerCounter) && handle !in heap.nodes
              else
                && handle.data.timeout == (if time + t.repeat < U64 then time + t.repeat else U64 - 1)
                && handle.data == t.(timeout := handle.data.timeout, startId := old(timerCounter), active := true)
                && timerCounter == (old(timerCounter) + 1) % U64
      ensures forall h :: h != handle ==> (h in heap.nodes <==> h in old(heap.nodes))
      ensures var t := old(handle.data);
              Performed(old(Timers()), Timers(), old(timerCounter), timerCounter,
                        if t.callback == NoCallback || t.repeat == 0 || t.closing then Update(handle, handle.data)
                        else Operation.Start(handle, handle.data))
      ensures heap.nelts <= old(heap.nelts) + if old(handle.data.active) then 0 else 1
    {
      hide StrictWeakOrder, HeapOrder, Linked, Keys, Performed;
      ghost var was, counter := Timers(), timerCounter;
      if handle.data.callback == NoCallback {
        StartPerformed(was, was, counter, counter, handle, false);
        return Invalid;
      }
      if handle.data.repeat != 0 {
        Stop(handle);
        var started := Start(handle, handle.data.callback, handle.data.repeat, handle.data.repeat);
        if started == Ok {
          StartPerformed(was, Timers(), counter, timerCounter, handle, true);
        } else {
          UpdatePerformed(was, Timers(), timerCounter, handle);
        }
      } else {
        StartPerformed(was, was, counter, counter, handle, false);
      }
      return Ok;
    }

    /** uv_timer_set_repeat. */
    method SetRepeat(handle: Handle, repeat: nat)
      requires Valid() && handle in handles && repeat < U64
      modifies handle`data
      ensures Valid() && handle.data == old(handle.data).(repeat := repeat)
      ensures Performed(old(Timers()), Timers(), old(timerCounter), timerCounter, Update(handle, handle.data))
    {
      Set(handle, handle.data.(repeat := repeat));
    }

    /** uv_close on a timer: the flag, then uv__timer_close. */
    method Close(handle: Handle)
      requires Valid() && handle in handles && heap.nelts < LIMIT
      modifies handle`data
      modifies heap`min, heap`nelts, heap`nodes, handles`left, handles`right, handles`parent
      ensures Valid()
      ensures handle.data == old(handle.data).(active := false, closing := true)
      ensures Performed(old(Timers()), Timers(), old(timerCounter), timerCounter, Update(handle, handle.data))
      ensures forall h :: h in heap.nodes <==> h in old(heap.nodes) && h != handle
    {
      hide StrictWeakOrder, HeapOrder, Linked, Keys, Performed;
      ghost var was := Timers();
      Stop(handle);
      Set(handle, handle.data.(closing := true));
      UpdatePerformed(was, Timers(), timerCounter, handle);
    }

    /** uv__next_timeout: -1 to block indefinitely, 0 when a timer is due, and never
        more than the time left to any timer. */
    method NextTimeout() returns (r: int)
      requires Valid()
      ensures r == -1 <==> forall h :: h in handles ==> !h.data.active
      ensures r == 0 <==> exists h :: h in handles && h.data.active && h.data.timeout <= time
      ensures -1 <= r <= INT_MAX
      ensures r > 0 ==> forall h :: h in handles && h.data.active ==> r <= h.data.timeout - time
      ensures 0 < r < INT_MAX ==> exists h :: h in handles && h.data.active && r == h.data.timeout - time
    {
      hide StrictWeakOrder, HeapOrder, Linked, Keys;
      var handle := heap.Min();
      if handle == null {
        return -1;
      }
      assert handle in handles && handle.data.active;
      if handle.data.timeout <= time {
        return 0;
      }
      var diff := handle.data.timeout - time;
      if diff > INT_MAX {
        diff := INT_MAX;
      }
      return diff;
    }

    ghost function Timers(): (m: Table)
      reads this`handles, handles`data
      ensures m.Keys == handles && forall h :: h in handles ==> m[h] == h.data
    {
      map h | h in handles :: h.data
    }

    /** One turn of the loop of uv__run_timers, up to the call of the callback: the
        first due timer, if any, is stopped and, if it repeats, started again. */
    method Turn() returns (handle: Handle?)
      requires Valid() && heap.nelts < LIMIT && InRange(Timers())
      modifies this`timerCounter, handles`data
      modifies heap`min, heap`nelts, heap`nodes, handles`left, handles`right, handles`parent
      ensures Valid() && heap.nelts <= old(heap.nelts) && InRange(Timers())
      ensures Turned(old(Timers()), Timers(), time, old(timerCounter), timerCounter, handle)
      ensures handle != null ==>
        && handle in handles && Fired(old(Timers())[handle], handle.data, time)
        && handle.data.startId == if handle.data.active then old(timerCounter) else old(Timers())[handle].startId
    {
      hide StrictWeakOrder, HeapOrder, Linked, Keys;
      handle := heap.Min();
      if handle == null {
        return;
      }
      if handle.data.timeout > time {
        return null;
      }
      ghost var was := handle.data;
      Fire(handle);
      RearmedFired(was, time, old(timerCounter));
    }

    /** The first due timer is stopped and started again if it repeats. */
    method Fire(handle: Handle)
      requires Valid() && heap.nelts < LIMIT && handle in handles && handle.data.active
      modifies this`timerCounter, handle`data
      modifies heap`min, heap`nelts, heap`nodes, handles`left, handles`right, handles`parent
      ensures Valid() && heap.nelts <= old(heap.nelts)
      ensures handle.data == Rearmed(old(handle.data), time, old(timerCounter))
      ensures timerCounter == if old(handle.data.repeat) == 0 then old(timerCounter) else Next(old(timerCounter))
    {
      hide StrictWeakOrder, HeapOrder, Linked, Keys;
      Stop(handle);
      var _ := Again(handle);
    }

    /** uv__run_timers, for callbacks that leave the timers alone; fired is the order
        in which their callbacks are called. */
    method RunTimers() returns (fired: seq<Handle>)
      requires Valid() && heap.nelts < LIMIT && InRange(Timers()) && CanEnd(Timers(), time)
      modifies this`timerCounter, handles`data
      modifies heap`min, heap`nelts, heap`nodes, handles`left, handles`right, handles`parent
      ensures Valid()
      ensures Performed(old(Timers()), Timers(), old(timerCounter), timerCounter, Run(time, fired))
      ensures forall h :: h in fired <==> h in handles && old(h.data.active) && old(h.data.timeout) <= time
      ensures forall h :: h in fired ==> Fired(old(h.data), h.data, time)
      ensures forall h :: h in handles && h !in fired ==> h.data == old(h.data)
      ensures forall h :: h in handles ==> !Due(h.data, time)
    {
      hide StrictWeakOrder, HeapOrder, Linked, Keys, Ran, Rearmed;
      fired := [];
      ghost var was, counter := Timers(), timerCounter;
      ghost var rest := handles;
      RanNothing(was, time, counter);
      while true
        invariant Valid() && heap.nelts < LIMIT && InRange(Timers())
        invariant Ran(was, Timers(), fired, time, counter, timerCounter)
        invariant forall h :: h in rest <==> h in handles && h !in fired
        decreases rest
      {
        ghost var now, c := Timers(), timerCounter;
        var handle := Turn();
        if handle == null {
          break;
        }
        RanOn(was, now, fired, time, counter, c, Timers(), timerCounter, handle);
        fired, rest := fired + [handle], rest - {handle};
      }
      RanAll(was, Timers(), fired, time, counter, timerCounter);
      FiredTimers(was, Timers(), fired, time, counter, timerCounter);
    }
  }
}
