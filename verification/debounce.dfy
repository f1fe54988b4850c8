/**
 * `debounce(func, wait)` and `throttle(func, wait)` (identical in this
 * code base) as a timed pending-call state machine: each call cancels the
 * pending timer and schedules a new one `wait` after it; when a timer comes
 * due, `func` runs once with the arguments of the call that scheduled it.
 */
module Debounce {
  import opened Wrappers

  /** The scheduled invocation: its arguments and the time at which it fires. */
  datatype Pending<A> = Pending(args: A, due: int)

  datatype Debounced<A> = Debounced(wait: nat, pending: Option<Pending<A>>)

  /** Something that happens to the wrapper: a call at a time, or the clock reaching a time. */
  datatype Event<A> = CallAt(at: int, args: A) | TickAt(at: int)

  /** `debounce(func, wait)`: no timer is pending yet. */
  function NewDebounced<A>(wait: nat): (d: Debounced<A>)
    ensures d.wait == wait && d.pending.None?
  {
    Debounced(wait, None)
  }

  /** `throttle(func, wait)` builds exactly the same wrapper. */
  function NewThrottled<A>(wait: nat): (d: Debounced<A>)
    ensures d.wait == wait && d.pending.None?
  {
    Debounced(wait, None)
  }

  /** One call of the wrapper: `clearTimeout` then `setTimeout(later, wait)`. */
  function Call<A>(d: Debounced<A>, now: int, args: A): (r: Debounced<A>)
    ensures r.wait == d.wait
    ensures r.pending.Some? && r.pending.value.args == args && r.pending.value.due == now + d.wait
  {
    Debounced(d.wait, Some(Pending(args, now + d.wait)))
  }

  /** A call discards whatever was pending: the state after it does not depend on the state before. */
  lemma CallCancelsPending<A>(d1: Debounced<A>, d2: Debounced<A>, now: int, args: A)
    requires d1.wait == d2.wait
    ensures Call(d1, now, args) == Call(d2, now, args)
  {
  }

  /** The clock reaches `now`: a due timer runs `func` once with its arguments. */
  function Tick<A>(d: Debounced<A>, now: int): (r: (Debounced<A>, Option<A>))
    ensures r.0.wait == d.wait
    ensures r.1.Some? <==> d.pending.Some? && d.pending.value.due <= now
    ensures r.1.Some? ==> r.1.value == d.pending.value.args && r.0.pending.None?
    ensures r.1.None? ==> r.0 == d
  {
    match d.pending
    case Some(p) => if p.due <= now then (Debounced(d.wait, None), Some(p.args)) else (d, None)
    case None => (d, None)
  }

  function Step<A>(d: Debounced<A>, e: Event<A>): (Debounced<A>, Option<A>) {
    match e
    case CallAt(t, a) => (Call(d, t, a), None)
    case TickAt(t) => Tick(d, t)
  }

  function PendingCount<A>(d: Debounced<A>): nat {
    if d.pending.Some? then 1 else 0
  }

  function CallCount<A>(events: seq<Event<A>>): nat {
    if |events| == 0 then 0
    else CallCount(events[..|events| - 1]) + (if events[|events| - 1].CallAt? then 1 else 0)
  }

  function TickCount<A>(events: seq<Event<A>>): nat {
    if |events| == 0 then 0
    else TickCount(events[..|events| - 1]) + (if events[|events| - 1].TickAt? then 1 else 0)
  }

  /** The arguments of every call among `events`. */
  function CallArgs<A>(events: seq<Event<A>>): seq<A> {
    if |events| == 0 then []
    else CallArgs(events[..|events| - 1])
         + (if events[|events| - 1].CallAt? then [events[|events| - 1].args] else [])
  }

  /**
   * Runs `events` in order and collects the invocations of `func`. Every
   * invocation uses the arguments of some call (or of the timer pending at
   * the start), and there are never more invocations than calls or ticks.
   */
  function Run<A>(d: Debounced<A>, events: seq<Event<A>>): (r: (Debounced<A>, seq<A>))
    ensures r.0.wait == d.wait
    ensures |r.1| + PendingCount(r.0) <= CallCount(events) + PendingCount(d)
    ensures |r.1| <= TickCount(events)
    ensures forall a :: a in r.1 ==> a in CallArgs(events) || (d.pending.Some? && a == d.pending.value.args)
    ensures r.0.pending.Some? ==>
              r.0.pending.value.args in CallArgs(events) || (d.pending.Some? && r.0.pending == d.pending)
  {
    if |events| == 0 then (d, [])
    else
      var init := events[..|events| - 1];
      var (s, out) := Run(d, init);
      var (s', fired) := Step(s, events[|events| - 1]);
      (s', out + (if fired.Some? then [fired.value] else []))
  }

  /** The call a pending timer would come from if no tick ever fired: the most recent one. */
  function LastCall<A>(events: seq<Event<A>>, wait: nat): Option<Pending<A>> {
    if |events| == 0 then None
    else match events[|events| - 1]
      case CallAt(t, a) => Some(Pending(a, t + wait))
      case TickAt(_) => LastCall(events[..|events| - 1], wait)
  }

  /**
   * Last call wins: from a fresh wrapper, whatever timer is pending belongs
   * to the most recent call, with that call's arguments and deadline.
   */
  lemma {:induction false} PendingIsLastCall<A>(wait: nat, events: seq<Event<A>>)
    ensures Run(NewDebounced<A>(wait), events).0.pending.Some? ==>
              Run(NewDebounced<A>(wait), events).0.pending == LastCall(events, wait)
  {
    if |events| > 0 {
      PendingIsLastCall(wait, events[..|events| - 1]);
    }
  }

  /** What the event at position `k` makes `func` run with, starting from a fresh wrapper. */
  function FiredAt<A>(wait: nat, events: seq<Event<A>>, k: nat): Option<A>
    requires k < |events|
  {
    Step(Run(NewDebounced<A>(wait), events[..k]).0, events[k]).1
  }

  /**
   * Last call wins: a run of `func` at event `k` is a tick at or after the
   * deadline of the most recent earlier call, and uses that call's arguments.
   */
  lemma LastCallFires<A>(wait: nat, events: seq<Event<A>>, k: nat)
    requires k < |events|
    ensures FiredAt(wait, events, k).Some? ==>
              && events[k].TickAt?
              && LastCall(events[..k], wait).Some?
              && LastCall(events[..k], wait).value.due <= events[k].at
              && FiredAt(wait, events, k).value == LastCall(events[..k], wait).value.args
  {
    PendingIsLastCall(wait, events[..k]);
  }

  /** Every run of `func` in the output of `Run` is the firing of some event. */
  lemma {:induction false} RunOutputsAreFirings<A>(wait: nat, events: seq<Event<A>>)
    ensures forall a :: a in Run(NewDebounced<A>(wait), events).1 ==>
              exists k :: 0 <= k < |events| && FiredAt(wait, events, k) == Some(a)
  {
    if |events| > 0 {
      var n := |events| - 1;
      var init := events[..n];
      RunOutputsAreFirings(wait, init);
      forall a | a in Run(NewDebounced<A>(wait), events).1
        ensures exists k :: 0 <= k < |events| && FiredAt(wait, events, k) == Some(a)
      {
        if a in Run(NewDebounced<A>(wait), init).1 {
          var k :| 0 <= k < n && FiredAt(wait, init, k) == Some(a);
          assert init[..k] == events[..k];
          assert FiredAt(wait, events, k) == Some(a);
        } else {
          assert FiredAt(wait, events, n) == Some(a);
        }
      }
    }
  }

  /** Hence every run of `func` uses the arguments of the call that was most recent when its timer came due. */
  lemma EveryRunUsesLastCall<A>(wait: nat, events: seq<Event<A>>)
    ensures forall a :: a in Run(NewDebounced<A>(wait), events).1 ==>
              exists k :: 0 <= k < |events| && events[k].TickAt? && LastCall(events[..k], wait).Some?
                          && a == LastCall(events[..k], wait).value.args
  {
    RunOutputsAreFirings(wait, events);
    forall a | a in Run(NewDebounced<A>(wait), events).1
      ensures exists k :: 0 <= k < |events| && events[k].TickAt? && LastCall(events[..k], wait).Some?
                          && a == LastCall(events[..k], wait).value.args
    {
      var k :| 0 <= k < |events| && FiredAt(wait, events, k) == Some(a);
      LastCallFires(wait, events, k);
    }
  }

  /** Every tick after a call comes before the most recent call's timer is due. */
  ghost predicate QuietWindow<A>(events: seq<Event<A>>, wait: nat) {
    forall k :: 0 <= k < |events| && events[k].TickAt? ==>
      LastCall(events[..k], wait).None? || events[k].at < LastCall(events[..k], wait).value.due
  }

  /** Within a quiet window nothing fires, and the pending timer belongs to the latest call. */
  lemma {:induction false} QuietWindowNeverFires<A>(wait: nat, events: seq<Event<A>>)
    requires QuietWindow(events, wait)
    ensures Run(NewDebounced<A>(wait), events).1 == []
    ensures Run(NewDebounced<A>(wait), events).0.pending == LastCall(events, wait)
  {
    if |events| > 0 {
      var k := |events| - 1;
      var init := events[..k];
      QuietWindowPrefix(wait, events);
      QuietWindowNeverFires(wait, init);
      var prev := Run(NewDebounced<A>(wait), init);
      assert events == init + [events[k]];
      QuietStep(wait, prev.0, init, events[k]);
    }
  }

  /** Dropping the last event keeps a quiet window quiet. */
  lemma QuietWindowPrefix<A>(wait: nat, events: seq<Event<A>>)
    requires |events| > 0 && QuietWindow(events, wait)
    ensures QuietWindow(events[..|events| - 1], wait)
  {
    var init := events[..|events| - 1];
    forall j | 0 <= j < |init| && init[j].TickAt?
      ensures LastCall(init[..j], wait).None? || init[j].at < LastCall(init[..j], wait).value.due
    {
      assert init[..j] == events[..j];
    }
  }

  /** An event inside the window fires nothing, and the pending timer stays the latest call's. */
  lemma QuietStep<A>(wait: nat, d: Debounced<A>, init: seq<Event<A>>, e: Event<A>)
    requires d.wait == wait && d.pending == LastCall(init, wait)
    requires e.TickAt? ==> LastCall(init, wait).None? || e.at < LastCall(init, wait).value.due
    ensures Step(d, e).1 == None
    ensures Step(d, e).0.pending == LastCall(init + [e], wait)
  {
    assert (init + [e])[..|init|] == init;
  }

  /**
   * A burst of calls, with any ticks inside the window, followed by the
   * clock passing the last call's deadline: `func` runs exactly once, with
   * the last call's arguments, and nothing is pending afterwards.
   */
  lemma BurstFiresOnce<A>(wait: nat, burst: seq<Event<A>>, now: int)
    requires QuietWindow(burst, wait)
    requires LastCall(burst, wait).Some? && now >= LastCall(burst, wait).value.due
    ensures Run(NewDebounced<A>(wait), burst + [TickAt(now)]).1 == [LastCall(burst, wait).value.args]
    ensures Run(NewDebounced<A>(wait), burst + [TickAt(now)]).0.pending.None?
  {
    QuietWindowNeverFires(wait, burst);
    assert (burst + [TickAt(now)])[..|burst|] == burst;
  }

  /** The throttled wrapper behaves like the debounced one on every sequence of events. */
  lemma ThrottleIsDebounce<A>(wait: nat, events: seq<Event<A>>)
    ensures Run(NewThrottled<A>(wait), events) == Run(NewDebounced<A>(wait), events)
  {
  }
}
