/**
  The message source of the daemon: when it yields, when it sends feedback, and what position it
  reports.  Clock readings are milliseconds.
*/
module Replication {
  import opened Prelude

  const KEEPALIVE: nat := 10_000

  /** What happens to a stream: time spent by the consumer, an ack, or one pass of the loop, with
      whether a message was decoded and when a wait for the socket returned if there was one. */
  datatype StreamEvent =
    | Spent(ms: nat)
    | Acked(lsn: nat)
    | Passed(message: bool, woken: int)

  datatype Timing = Timing(now: int, lastYield: int, lastFeedback: int, flushLsn: nat, sent: seq<nat>)

  datatype Yield = Nothing | Message | WakeUp

  /** send_feedback of the last acknowledged position; 0 before the first. */
  function Reported(t: Timing): Timing { t.(lastFeedback := t.now, sent := t.sent + [t.flushLsn]) }

  /** _keepalive_if_due */
  function Kept(t: Timing): Timing { if t.now - t.lastFeedback >= KEEPALIVE then Reported(t) else t }

  function OneEvent(t: Timing, wake: nat, e: StreamEvent): (Timing, Yield) {
    match e
    case Spent(ms) => (t.(now := t.now + ms), Nothing)
    case Acked(lsn) => (Reported(t.(flushLsn := lsn)), Nothing)
    case Passed(message, woken) =>
      if message then (t.(lastYield := t.now), Message)
      else
        var later := if wake - (t.now - t.lastYield) > 0 then woken else t.now;
        if later - t.lastYield >= wake then (Kept(t).(now := later, lastYield := later), WakeUp)
        else (Kept(t).(now := later), Nothing)
  }

  function AfterEvents(t: Timing, wake: nat, events: seq<StreamEvent>): Timing
    decreases |events|
  {
    if events == [] then t else AfterEvents(OneEvent(t, wake, events[0]).0, wake, events[1..])
  }

  /** The times at which something is yielded. */
  function Yields(t: Timing, wake: nat, events: seq<StreamEvent>): seq<int>
    decreases |events|
  {
    if events == [] then []
    else
      var (next, yielded) := OneEvent(t, wake, events[0]);
      (if yielded.Nothing? then [] else [next.now]) + Yields(next, wake, events[1..])
  }

  // ---- the wake interval ----------------------------------------------------------------

  /** An ideal clock: the consumer takes no time, and a wait ends by its timeout. */
  ghost predicate Ideal(t: Timing, wake: nat, events: seq<StreamEvent>)
    decreases |events|
  {
    events == [] ||
    (&& (match events[0]
         case Spent(ms) => ms == 0
         case Acked(_) => true
         case Passed(_, woken) => t.now <= woken && (t.now < t.lastYield + wake ==> woken <= t.lastYield + wake))
     && Ideal(OneEvent(t, wake, events[0]).0, wake, events[1..]))
  }

  /** Times that start at most a wake interval after `last` and step by at most that. */
  predicate Paced(last: int, wake: nat, times: seq<int>)
    decreases |times|
  {
    times == [] || (last <= times[0] <= last + wake && Paced(times[0], wake, times[1..]))
  }

  /** The last yield was at most a wake interval ago. */
  predicate InWindow(t: Timing, wake: nat) { t.lastYield <= t.now <= t.lastYield + wake }

  /** With an ideal clock, whatever arrives, two yields are never further apart than the wake
      interval, nor is the end of the stream from the last of them. */
  lemma {:induction false} YieldsArePaced(t: Timing, wake: nat, events: seq<StreamEvent>)
    requires Ideal(t, wake, events) && InWindow(t, wake)
    ensures Paced(t.lastYield, wake, Yields(t, wake, events) + [AfterEvents(t, wake, events).now])
    decreases |events|
  {
    var all, end := Yields(t, wake, events), AfterEvents(t, wake, events).now;
    if events == [] {
      assert all + [end] == [end] && [end][1..] == [];
    } else {
      var (next, yielded) := OneEvent(t, wake, events[0]);
      YieldsArePaced(next, wake, events[1..]);
      var rest := Yields(next, wake, events[1..]);
      if yielded.Nothing? {
        assert all == rest;
      } else {
        assert (all + [end])[0] == next.now && (all + [end])[1..] == rest + [end];
      }
    }
  }

  /** What one pass of the source yields: a message when it finds one, a wake when a wake interval is over
      since the last yield, counting the wait of the pass, and else nothing. */
  lemma PassYields(t: Timing, wake: nat, message: bool, woken: int)
    ensures var (next, yielded) := OneEvent(t, wake, Passed(message, woken));
            && (yielded.Message? <==> message)
            && (yielded.WakeUp? <==> !message && next.now - t.lastYield >= wake)
            && next.now == (if !message && t.now - t.lastYield < wake then woken else t.now)
            && next.lastYield == if yielded.Nothing? then t.lastYield else next.now
  {
  }

  function Last(times: seq<int>): int
    requires times != []
  {
    times[|times| - 1]
  }

  /** A stream remembers when it last yielded. */
  lemma {:induction false} LastYieldIsLast(t: Timing, wake: nat, events: seq<StreamEvent>)
    ensures AfterEvents(t, wake, events).lastYield == Last([t.lastYield] + Yields(t, wake, events))
    decreases |events|
  {
    if events != [] {
      var (next, yielded) := OneEvent(t, wake, events[0]);
      LastYieldIsLast(next, wake, events[1..]);
      var rest := Yields(next, wake, events[1..]);
      assert Yields(t, wake, events) == (if yielded.Nothing? then [] else [next.now]) + rest;
    }
  }

  /** A wake never comes before a whole wake interval without a yield. */
  lemma WakesAreSpaced(t: Timing, wake: nat, events: seq<StreamEvent>, e: StreamEvent)
    requires OneEvent(AfterEvents(t, wake, events), wake, e).1.WakeUp?
    ensures OneEvent(AfterEvents(t, wake, events), wake, e).0.now
            >= Last([t.lastYield] + Yields(t, wake, events)) + wake
  {
    LastYieldIsLast(t, wake, events);
  }

  // ---- positions --------------------------------------------------------------------------

  /** Every position sent, by an ack or as a keepalive, is one that was passed to ack, or the one the
      stream began with. */
  lemma {:induction false} OnlyAcksAreSent(t: Timing, wake: nat, events: seq<StreamEvent>, lsn: nat)
    requires lsn in AfterEvents(t, wake, events).sent
    ensures lsn in t.sent || lsn == t.flushLsn || Acked(lsn) in events
    decreases |events|
  {
    if events != [] {
      var next := OneEvent(t, wake, events[0]).0;
      OnlyAcksAreSent(next, wake, events[1..], lsn);
      assert forall e :: e in events[1..] ==> e in events;
    }
  }

  // ---- keepalives --------------------------------------------------------------------------

  function Age(t: Timing): int { t.now - t.lastFeedback }

  /** At the check of a pass the feedback is younger than 10 s, counting what the pass itself
      sends, if and only if the pass found no message or the feedback was that young already. */
  lemma PassKeepsAliveIff(t: Timing, wake: nat, e: StreamEvent)
    requires e.Passed?
    ensures t.now - OneEvent(t, wake, e).0.lastFeedback < 10_000 <==> !e.message || Age(t) < 10_000
  {
  }

  /** The state before event i. */
  function At(t: Timing, wake: nat, events: seq<StreamEvent>, i: nat): Timing
    requires i <= |events|
  {
    AfterEvents(t, wake, events[..i])
  }

  /** At the check of every pass the feedback is younger than the bound. */
  ghost predicate Young(t: Timing, wake: nat, events: seq<StreamEvent>, bound: int) {
    forall j :: 0 <= j < |events| && events[j].Passed? ==>
      At(t, wake, events, j).now - OneEvent(At(t, wake, events, j), wake, events[j]).0.lastFeedback < bound
  }

  /** Feedback may go out: an ack, or a pass that finds no message. */
  predicate Refreshes(e: StreamEvent) { e.Acked? || (e.Passed? && !e.message) }

  predicate Busy(events: seq<StreamEvent>) { forall i :: 0 <= i < |events| ==> !Refreshes(events[i]) }

  function TimeSpent(events: seq<StreamEvent>): nat {
    if events == [] then 0
    else TimeSpent(events[..|events| - 1]) + var e := events[|events| - 1]; if e.Spent? then e.ms else 0
  }

  lemma {:induction false} AfterAppend(t: Timing, wake: nat, a: seq<StreamEvent>, b: seq<StreamEvent>)
    ensures AfterEvents(t, wake, a + b) == AfterEvents(AfterEvents(t, wake, a), wake, b)
    ensures Yields(t, wake, a + b) == Yields(t, wake, a) + Yields(AfterEvents(t, wake, a), wake, b)
    decreases |a|
  {
    if a == [] {
      assert a + b == b;
    } else {
      assert (a + b)[0] == a[0] && (a + b)[1..] == a[1..] + b;
      AfterAppend(OneEvent(t, wake, a[0]).0, wake, a[1..], b);
    }
  }

  lemma AtNext(t: Timing, wake: nat, events: seq<StreamEvent>, i: nat)
    requires i < |events|
    ensures At(t, wake, events, i + 1) == OneEvent(At(t, wake, events, i), wake, events[i]).0
  {
    assert events[..i + 1] == events[..i] + [events[i]];
    AfterAppend(t, wake, events[..i], [events[i]]);
    assert [events[i]][1..] == [];
  }

  /** Nothing is sent in a busy stretch: the feedback ages by the time that the stretch takes. */
  lemma {:induction false} BusyAges(t: Timing, wake: nat, events: seq<StreamEvent>, i: nat, j: nat)
    requires i <= j <= |events| && Busy(events[i..j])
    ensures Age(At(t, wake, events, j)) == Age(At(t, wake, events, i)) + TimeSpent(events[i..j])
    ensures At(t, wake, events, j).sent == At(t, wake, events, i).sent
    decreases j - i
  {
    if i < j {
      assert events[i..j][..j - 1 - i] == events[i..j - 1];
      assert events[i..j][j - 1 - i] == events[j - 1];
      assert forall k :: 0 <= k < j - 1 - i ==> events[i..j - 1][k] == events[i..j][k];
      BusyAges(t, wake, events, i, j - 1);
      AtNext(t, wake, events, j - 1);
    }
  }

  /** A stretch begins: at the start, or after something that may send feedback. */
  predicate Begins(events: seq<StreamEvent>, i: nat)
    requires i <= |events|
  {
    i == 0 || Refreshes(events[i - 1])
  }

  lemma {:induction false} StretchOf(events: seq<StreamEvent>, j: nat) returns (i: nat)
    requires j <= |events|
    ensures i <= j && Begins(events, i) && Busy(events[i..j])
    decreases j
  {
    if Begins(events, j) {
      i := j;
    } else {
      i := StretchOf(events, j - 1);
      assert events[i..j] == events[i..j - 1] + [events[j - 1]];
    }
  }

  /** No busy stretch that ends with a message outlasts what the feedback at its start leaves of the
      bound. */
  ghost predicate ShortStretches(t: Timing, wake: nat, events: seq<StreamEvent>, bound: int) {
    forall i, j :: 0 <= i <= j < |events| && Begins(events, i) && Busy(events[i..j])
                   && events[j].Passed? && events[j].message ==>
      Age(At(t, wake, events, i)) + TimeSpent(events[i..j]) < bound
  }

  /** Feedback stays younger than a bound of at least 10 s if and only if no busy stretch
      outlasts it. */
  lemma YoungIffShortStretches(t: Timing, wake: nat, events: seq<StreamEvent>, bound: int)
    requires 10_000 <= bound
    ensures Young(t, wake, events, bound) <==> ShortStretches(t, wake, events, bound)
  {
    if Young(t, wake, events, bound) {
      forall i, j | 0 <= i <= j < |events| && Begins(events, i) && Busy(events[i..j])
                    && events[j].Passed? && events[j].message
        ensures Age(At(t, wake, events, i)) + TimeSpent(events[i..j]) < bound
      {
        BusyAges(t, wake, events, i, j);
      }
    }
    if ShortStretches(t, wake, events, bound) {
      forall j | 0 <= j < |events| && events[j].Passed?
        ensures At(t, wake, events, j).now - OneEvent(At(t, wake, events, j), wake, events[j]).0.lastFeedback < bound
      {
        PassKeepsAliveIff(At(t, wake, events, j), wake, events[j]);
        if events[j].message {
          var i := StretchOf(events, j);
          BusyAges(t, wake, events, i, j);
        }
      }
    }
  }

  /** What one busy stretch that ends with a message can cost, told from its inputs alone: whatever
      feedback younger than 10 s it begins with stays younger than 10 s + g, if and only if
      it takes no more than g. */
  lemma BusyStretchCosts(wake: nat, busy: seq<StreamEvent>, g: nat)
    requires Busy(busy)
    ensures (forall t :: 0 <= Age(t) < 10_000 ==>
               Age(AfterEvents(t, wake, busy)) < 10_000 + g) <==> TimeSpent(busy) <= g
  {
    forall t ensures Age(AfterEvents(t, wake, busy)) == Age(t) + TimeSpent(busy) {
      assert busy[..|busy|] == busy && busy[0..|busy|] == busy;
      BusyAges(t, wake, busy, 0, |busy|);
    }
    if forall t :: 0 <= Age(t) < KEEPALIVE ==> Age(AfterEvents(t, wake, busy)) < KEEPALIVE + g {
      var oldest := Timing(KEEPALIVE - 1, 0, 0, 0, []);
      assert Age(AfterEvents(oldest, wake, busy)) < KEEPALIVE + g;
    }
  }

  /** From a stream just opened: messages that keep coming for n ms leave the feedback n ms old, for
      every n, and nothing is sent. */
  lemma BusyStreamGoesStale(now: int, wake: nat, n: nat)
    ensures var t, events := Timing(now, now, now, 0, []), [Spent(n), Passed(true, now)];
            !Young(t, wake, events, n) && AfterEvents(t, wake, events).sent == []
  {
    var t, events := Timing(now, now, now, 0, []), [Spent(n), Passed(true, now)];
    assert events[..0] == [] && events[..2] == events;
    AtNext(t, wake, events, 0);
    AtNext(t, wake, events, 1);
    var before := At(t, wake, events, 1);
    assert events[1].Passed? && before.now - OneEvent(before, wake, events[1]).0.lastFeedback == n;
  }

  // ---- the stream object ------------------------------------------------------------------------

  class Stream {
    var flushLsn: nat
    var stopping: bool
    var now: int
    var lastFeedback: int
    ghost var sent: seq<nat>

    constructor (now: int)
      ensures Times(now) == Timing(now, now, now, 0, []) && !stopping
    {
      flushLsn, stopping, sent := 0, false, [];
      this.now, lastFeedback := now, now;
    }

    ghost function Times(lastYield: int): Timing
      reads this
    {
      Timing(now, lastYield, lastFeedback, flushLsn, sent)
    }

    /** The clock moves on while the consumer works. */
    method Spend(ms: nat, ghost lastYield: int)
      modifies this`now
      ensures Times(lastYield) == OneEvent(old(Times(lastYield)), 0, Spent(ms)).0
    {
      now := now + ms;
    }

    /** Reports a position as durably applied; `fails` when the feedback cannot be sent. */
    method Ack(lsn: nat, fails: bool) returns (error: Option<Error>)
      modifies this`flushLsn, this`sent, this`lastFeedback
      ensures flushLsn == lsn && (error.Some? <==> fails)
      ensures sent == if fails then old(sent) else old(sent) + [lsn]
      ensures lastFeedback == if fails then old(lastFeedback) else now
    {
      flushLsn := lsn;
      if fails {
        return Some(DatabaseError);
      }
      sent := sent + [lsn];
      lastFeedback := now;
      error := None;
    }

    /** Asks messages to finish. */
    method Stop()
      modifies this`stopping
      ensures stopping
    {
      stopping := true;
    }

    method KeepaliveIfDue(ghost lastYield: int)
      modifies this`sent, this`lastFeedback
      ensures Times(lastYield) == Kept(old(Times(lastYield)))
    {
      if now - lastFeedback >= KEEPALIVE {
        sent := sent + [flushLsn];
        lastFeedback := now;
      }
    }

    /** messages, up to its next yield: passes until a message or a wake; none after a stop. */
    method Next(wake: nat, lastYield: int, passes: seq<StreamEvent>) returns (yielded: Yield, last: int, used: nat)
      requires forall i :: 0 <= i < |passes| ==> passes[i].Passed?
      modifies this`now, this`sent, this`lastFeedback
      ensures used <= |passes| && (stopping ==> used == 0 && yielded.Nothing?)
      ensures Times(last) == AfterEvents(old(Times(lastYield)), wake, passes[..used])
      ensures Yields(old(Times(lastYield)), wake, passes[..used]) == if yielded.Nothing? then [] else [now]
      ensures !yielded.Nothing? ==> last == now
      ensures yielded.Nothing? && !stopping ==> used == |passes|
    {
      yielded, last, used := Nothing, lastYield, 0;
      ghost var start := Times(lastYield);
      while !stopping && used < |passes| && yielded.Nothing?
        invariant used <= |passes| && (stopping ==> used == 0 && yielded.Nothing?)
        invariant Times(last) == AfterEvents(start, wake, passes[..used])
        invariant Yields(start, wake, passes[..used]) == if yielded.Nothing? then [] else [now]
        invariant yielded.Nothing? || last == now
        decreases |passes| - used
      {
        OneMorePass(start, wake, passes, used);
        var pass := passes[used];
        if pass.message {
          yielded, last := Message, now;
        } else {
          KeepaliveIfDue(last);
          var remaining := wake - (now - last);
          if remaining > 0 {
            now := pass.woken;
          }
          if now - last >= wake {
            yielded, last := WakeUp, now;
          }
        }
        used := used + 1;
      }
    }
  }

  lemma OneMorePass(t: Timing, wake: nat, events: seq<StreamEvent>, n: nat)
    requires n < |events|
    ensures var (next, yielded) := OneEvent(AfterEvents(t, wake, events[..n]), wake, events[n]);
            && AfterEvents(t, wake, events[..n + 1]) == next
            && Yields(t, wake, events[..n + 1]) ==
               Yields(t, wake, events[..n]) + (if yielded.Nothing? then [] else [next.now])
  {
    assert events[..n + 1] == events[..n] + [events[n]];
    AfterAppend(t, wake, events[..n], [events[n]]);
    assert [events[n]][1..] == [];
  }
}
