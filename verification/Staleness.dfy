/** How long a sealed transaction waits for its flush, with an ideal clock. */
module Staleness {
  import opened Prelude
  import opened Machine
  import opened Runs
  import opened Replication

  /** The wake interval: min(1 s, max_ms). */
  function WakeMs(p: Params): nat { if p.maxMs < 1000 then p.maxMs else 1000 }

  /** The run when a turn decides whether to flush. */
  function Seen(p: Params, w: Run, item: Item, count: nat): Run
    requires p.Valid() && Ready(w)
  {
    if item.payload.Data? && p.decode(item.payload.bytes).Ok?
    then Sees(p, w, p.decode(item.payload.bytes).value, item.sealedAt, count)
    else w
  }

  /** The turn begins a flush. */
  predicate BeginsFlush(p: Params, w: Run, item: Item, count: nat)
    requires p.Valid() && Ready(w)
  {
    var x := Seen(p, w, item, count);
    match item.payload
    case Broken => false
    case Wake => w.sys.daemon.pending != []
    case Data(bytes) =>
      p.decode(bytes).Ok? && x.sys.daemon.Up? && Due(p, x.sys.daemon.pending, x.oldest, item.checkedAt)
  }

  /** The item seals a transaction that is not skipped. */
  predicate SealsOne(p: Params, w: Run, item: Item, count: nat)
    requires p.Valid() && Ready(w)
  {
    var x := Seen(p, w, item, count);
    x.sys.daemon.Up? && |x.sys.daemon.pending| > |w.sys.daemon.pending|
  }

  /** When the pending transactions were sealed, after what the item brings. */
  function Sealings(p: Params, w: Run, item: Item, count: nat, ages: seq<int>): seq<int>
    requires p.Valid() && Ready(w)
  {
    if SealsOne(p, w, item, count) then ages + [item.sealedAt] else ages
  }

  /** `ages` are the sealing times of the pending transactions, the first one is `oldest`. */
  ghost predicate Aged(w: Run, ages: seq<int>, now: int)
    requires Ready(w)
  {
    && |ages| == |w.sys.daemon.pending|
    && (ages != [] ==> w.oldest == Some(ages[0]))
    && forall i :: 0 <= i < |ages| ==> ages[0] <= ages[i] <= now
  }

  /** Nothing pending has waited for max_ms. */
  ghost predicate Fresh(p: Params, ages: seq<int>, now: int) {
    forall i :: 0 <= i < |ages| ==> now - ages[i] < p.maxMs
  }

  ghost predicate WaitedLess(ages: seq<int>, now: int, bound: nat) {
    forall i :: 0 <= i < |ages| ==> now - ages[i] < bound
  }

  lemma SealingsAge(p: Params, w: Run, item: Item, count: nat, ages: seq<int>, now: int)
    requires p.Valid() && LoopHead(p, w) && Aged(w, ages, now) && item.sealedAt >= now
    requires Seen(p, w, item, count).sys.daemon.Up?
    ensures Aged(Seen(p, w, item, count), Sealings(p, w, item, count, ages), item.sealedAt)
  {
    if item.payload.Data? && p.decode(item.payload.bytes).Ok? {
      var x := Seen(p, w, item, count);
      assert |x.sys.daemon.pending| == |w.sys.daemon.pending| || |x.sys.daemon.pending| == |w.sys.daemon.pending| + 1;
    }
  }

  lemma FlushWaits(p: Params, w: Run, item: Item, count: nat, ages: seq<int>, now: int)
    requires p.Valid() && Ready(w) && Fresh(p, ages, now) && now <= item.sealedAt <= now + WakeMs(p)
    requires item.sealedAt == item.checkedAt
    ensures WaitedLess(Sealings(p, w, item, count, ages), item.checkedAt, p.maxMs + WakeMs(p))
  {
  }

  /** A flush begins less than max_ms plus the wake interval after each of its transactions was
      sealed; without one nothing has yet waited for max_ms. */
  lemma TurnIsTimely(p: Params, w: Run, item: Item, count: nat, ages: seq<int>, now: int)
    requires p.Valid() && LoopHead(p, w) && Aged(w, ages, now) && Fresh(p, ages, now)
    requires item.sealedAt == item.checkedAt && now <= item.sealedAt <= now + WakeMs(p)
    ensures var later := Sealings(p, w, item, count, ages);
            var x := Turn(p, w, item, count);
            && (BeginsFlush(p, w, item, count) ==> WaitedLess(later, item.checkedAt, p.maxMs + WakeMs(p)))
            && (x.sys.daemon.Up? ==>
                  && (BeginsFlush(p, w, item, count) ==> x.sys.daemon.pending == [])
                  && (!BeginsFlush(p, w, item, count) ==>
                    Aged(x, later, item.checkedAt) && Fresh(p, later, item.checkedAt)))
  {
    FlushWaits(p, w, item, count, ages, now);
    if Seen(p, w, item, count).sys.daemon.Up? {
      SealingsAge(p, w, item, count, ages, now);
    }
  }

  function Clock(items: seq<Item>): (times: seq<int>)
    ensures |times| == |items|
  {
    seq(|items|, i requires 0 <= i < |items| => items[i].checkedAt)
  }

  /** The clock is read once for an item. */
  ghost predicate OneReading(items: seq<Item>) {
    forall i :: 0 <= i < |items| ==> items[i].sealedAt == items[i].checkedAt
  }

  /** The loop goes on to a turn. */
  predicate HasTurn(w: Run, items: seq<Item>, env: seq<Env>)
    requires |env| == |items|
  {
    items != [] && !items[0].stop && Ready(w) && Ready(w.(sys := env[0].sys))
  }

  /** When the loop leaves off: at the item that brings a stop, or when the stream ends. */
  function LeavesAt(items: seq<Item>, end: int): int {
    if items == [] then end else items[0].checkedAt
  }

  /** When the turn is over: the sealing times of what is pending then. */
  function Remaining(p: Params, w: Run, item: Item, count: nat, ages: seq<int>): seq<int>
    requires p.Valid() && Ready(w)
  {
    if BeginsFlush(p, w, item, count) then [] else Sealings(p, w, item, count, ages)
  }

  /** The loop flushes in time: a turn that flushes, and the last flush at `end` or at a stop, begin
      less than `bound` after each of their transactions was sealed, and no turn leaves one pending
      that has waited for max_ms. */
  ghost predicate AllTimely(p: Params, w: Run, items: seq<Item>, env: seq<Env>, ages: seq<int>, end: int, bound: nat)
    requires p.Valid() && |env| == |items|
    decreases |items|
  {
    if HasTurn(w, items, env) then
      var t, item, count := w.(sys := env[0].sys), items[0], env[0].count;
      var x := Turn(p, t, item, count);
      && (BeginsFlush(p, t, item, count) ==> WaitedLess(Sealings(p, t, item, count, ages), item.checkedAt, bound))
      && (x.sys.daemon.Up? ==> WaitedLess(Remaining(p, t, item, count, ages), item.checkedAt, p.maxMs))
      && AllTimely(p, x, items[1..], env[1..], Remaining(p, t, item, count, ages), end, bound)
    else
      Ready(w) ==> WaitedLess(ages, LeavesAt(items, end), bound)
  }

  /** A transaction that is pending and was sealed at `sealed` begins flushing less than `bound`
      later, in a turn or in the last flush, unless the daemon halts before that. */
  ghost predicate FlushedSoon(p: Params, w: Run, items: seq<Item>, env: seq<Env>, end: int, sealed: int, bound: nat)
    requires p.Valid() && |env| == |items|
    decreases |items|
  {
    if HasTurn(w, items, env) then
      var t, item, count := w.(sys := env[0].sys), items[0], env[0].count;
      if BeginsFlush(p, t, item, count) then item.checkedAt - sealed < bound
      else FlushedSoon(p, Turn(p, t, item, count), items[1..], env[1..], end, sealed, bound)
    else
      Ready(w) ==> LeavesAt(items, end) - sealed < bound
  }

  /** Every transaction sealed in the loop is. */
  ghost predicate EachFlushedSoon(p: Params, w: Run, items: seq<Item>, env: seq<Env>, end: int, bound: nat)
    requires p.Valid() && |env| == |items|
    decreases |items|
  {
    HasTurn(w, items, env) ==>
      var t, item, count := w.(sys := env[0].sys), items[0], env[0].count;
      var x := Turn(p, t, item, count);
      && (SealsOne(p, t, item, count) && !BeginsFlush(p, t, item, count) ==>
            FlushedSoon(p, x, items[1..], env[1..], end, item.sealedAt, bound))
      && EachFlushedSoon(p, x, items[1..], env[1..], end, bound)
  }

  // ---- the loop heads of an ideal clock -------------------------------------------------------

  /** A loop head, what it will be fed, and how its clock goes on. */
  ghost predicate OnTime(p: Params, w: Run, items: seq<Item>, env: seq<Env>, ages: seq<int>, now: int, end: int)
    requires p.Valid()
  {
    && LoopHead(p, w) && Fed(p, w, items, env)
    && Aged(w, ages, now) && Fresh(p, ages, now)
    && Paced(now, WakeMs(p), Clock(items) + [end]) && OneReading(items)
  }

  lemma ClockGoesOn(now: int, wake: nat, items: seq<Item>, end: int)
    requires Paced(now, wake, Clock(items) + [end])
    ensures now <= LeavesAt(items, end) <= now + wake
    ensures items != [] ==> Paced(items[0].checkedAt, wake, Clock(items[1..]) + [end])
  {
    if items != [] {
      assert (Clock(items) + [end])[1..] == Clock(items[1..]) + [end];
    }
  }

  lemma OneTurnOnTime(p: Params, w: Run, items: seq<Item>, env: seq<Env>, ages: seq<int>, now: int, end: int)
    requires p.Valid() && OnTime(p, w, items, env, ages, now, end) && items != [] && !items[0].stop
    ensures HasTurn(w, items, env)
    ensures var t, item, count := w.(sys := env[0].sys), items[0], env[0].count;
            && LoopHead(p, t) && Aged(t, ages, now)
            && now <= item.checkedAt <= now + WakeMs(p)
            && var x := Turn(p, t, item, count);
            && (x.sys.daemon.Down? ||
                OnTime(p, x, items[1..], env[1..], Remaining(p, t, item, count, ages), item.checkedAt, end))
  {
    var t, item, count := w.(sys := env[0].sys), items[0], env[0].count;
    LeadsFrom(p.c, w.sys);
    ElsewhereKeeps(p.c, w.sys, w.sys, env[0].steps, env[0].sys);
    ClockGoesOn(now, WakeMs(p), items, end);
    TurnIsTimely(p, t, item, count, ages, now);
    TurnKeepsHead(p, t, item, count);
    assert forall i :: 0 <= i < |items[1..]| ==> items[1..][i] == items[i + 1];
  }

  lemma OldestWaits(ages: seq<int>, sealed: int, now: int, bound: nat)
    requires WaitedLess(ages, now, bound) && sealed in ages
    ensures now - sealed < bound
  {
  }

  lemma TurnFlushesInTime(p: Params, w: Run, item: Item, count: nat, ages: seq<int>, now: int, sealed: int)
    requires p.Valid() && LoopHead(p, w) && Aged(w, ages, now) && Fresh(p, ages, now) && sealed in ages
    requires item.sealedAt == item.checkedAt && now <= item.checkedAt <= now + WakeMs(p)
    ensures BeginsFlush(p, w, item, count) ==> item.checkedAt - sealed < p.maxMs + WakeMs(p)
    ensures !BeginsFlush(p, w, item, count) ==> sealed in Remaining(p, w, item, count, ages)
  {
    OldestWaits(ages, sealed, now, p.maxMs);
  }

  /** What a loop head has pending begins flushing in time. */
  lemma {:induction false} PendingIsFlushedSoon(p: Params, w: Run, items: seq<Item>, env: seq<Env>, ages: seq<int>,
                                                now: int, end: int, sealed: int)
    requires p.Valid() && OnTime(p, w, items, env, ages, now, end) && sealed in ages
    ensures FlushedSoon(p, w, items, env, end, sealed, p.maxMs + WakeMs(p))
    decreases |items|
  {
    if items != [] && !items[0].stop {
      OneTurnOnTime(p, w, items, env, ages, now, end);
      var t, item, count := w.(sys := env[0].sys), items[0], env[0].count;
      TurnFlushesInTime(p, t, item, count, ages, now, sealed);
      var x := Turn(p, t, item, count);
      if !BeginsFlush(p, t, item, count) {
        if x.sys.daemon.Up? {
          PendingIsFlushedSoon(p, x, items[1..], env[1..], Remaining(p, t, item, count, ages), item.checkedAt, end,
            sealed);
        }
      }
    } else {
      ClockGoesOn(now, WakeMs(p), items, end);
      OldestWaits(ages, sealed, now, p.maxMs);
    }
  }

  /** What the loop seals begins flushing in time. */
  lemma {:induction false} SealedIsFlushedSoon(p: Params, w: Run, items: seq<Item>, env: seq<Env>, ages: seq<int>,
                                               now: int, end: int)
    requires p.Valid() && OnTime(p, w, items, env, ages, now, end)
    ensures EachFlushedSoon(p, w, items, env, end, p.maxMs + WakeMs(p))
    decreases |items|
  {
    if HasTurn(w, items, env) {
      OneTurnOnTime(p, w, items, env, ages, now, end);
      var t, item, count := w.(sys := env[0].sys), items[0], env[0].count;
      var x, later := Turn(p, t, item, count), Remaining(p, t, item, count, ages);
      if x.sys.daemon.Up? {
        SealedIsFlushedSoon(p, x, items[1..], env[1..], later, item.checkedAt, end);
        if SealsOne(p, t, item, count) && !BeginsFlush(p, t, item, count) {
          PendingIsFlushedSoon(p, x, items[1..], env[1..], later, item.checkedAt, end, item.sealedAt);
        }
      }
    }
  }

  lemma WaitsOn(ages: seq<int>, now: int, later: int, wake: nat, bound: nat)
    requires WaitedLess(ages, now, bound) && later <= now + wake
    ensures WaitedLess(ages, later, bound + wake)
  {
  }

  /** Every flush begins in time, and no turn leaves a transaction that has waited for max_ms. */
  lemma {:induction false} EveryFlushIsTimely(p: Params, w: Run, items: seq<Item>, env: seq<Env>, ages: seq<int>,
                                              now: int, end: int)
    requires p.Valid() && OnTime(p, w, items, env, ages, now, end)
    ensures AllTimely(p, w, items, env, ages, end, p.maxMs + WakeMs(p))
    decreases |items|
  {
    if HasTurn(w, items, env) {
      OneTurnOnTime(p, w, items, env, ages, now, end);
      var t, item, count := w.(sys := env[0].sys), items[0], env[0].count;
      TurnIsTimely(p, t, item, count, ages, now);
      var x := Turn(p, t, item, count);
      if x.sys.daemon.Up? {
        EveryFlushIsTimely(p, x, items[1..], env[1..], Remaining(p, t, item, count, ages), item.checkedAt, end);
      }
    } else {
      ClockGoesOn(now, WakeMs(p), items, end);
      WaitsOn(ages, now, LeavesAt(items, end), WakeMs(p), p.maxMs);
    }
  }

  /** The staleness bound.  Let the items be what a stream yields along ideal passes, whatever arrives
      and when, and let the loop start with nothing pending.  Then every transaction that it seals
      begins flushing, in a turn or in the last flush, less than max_ms plus the wake interval and so
      less than twice max_ms after it was sealed, unless the daemon halts before that. */
  lemma StalenessIsBounded(p: Params, w: Run, items: seq<Item>, env: seq<Env>, t: Timing, events: seq<StreamEvent>)
    requires p.Valid() && LoopHead(p, w) && w.sys.daemon.pending == [] && Fed(p, w, items, env)
    requires Ideal(t, WakeMs(p), events) && InWindow(t, WakeMs(p))
    requires Clock(items) == Yields(t, WakeMs(p), events) && OneReading(items)
    ensures var end := AfterEvents(t, WakeMs(p), events).now;
            && EachFlushedSoon(p, w, items, env, end, p.maxMs + WakeMs(p))
            && AllTimely(p, w, items, env, [], end, p.maxMs + WakeMs(p))
    ensures WakeMs(p) <= p.maxMs && WakeMs(p) <= 1000 && (WakeMs(p) == p.maxMs || WakeMs(p) == 1000)
    ensures p.maxMs + WakeMs(p) <= 2 * p.maxMs
  {
    var end := AfterEvents(t, WakeMs(p), events).now;
    YieldsArePaced(t, WakeMs(p), events);
    SealedIsFlushedSoon(p, w, items, env, [], t.lastYield, end);
    EveryFlushIsTimely(p, w, items, env, [], t.lastYield, end);
  }
}
