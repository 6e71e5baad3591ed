/**
  `throttle(func, limit)` of the portfolio script as a two-state gate. The
  closure's `inThrottle` flag is the gate: a call while it is clear is passed on
  to `func` and, once `func` returns, sets it and schedules the timer; a call
  while it is set is dropped; the timer clears it. `func` runs before the flag
  is set, so a call whose `func` throws leaves the gate clear and schedules no
  timer. Time itself is left to the `TimerExpired` event.
 */
module Throttle {

  datatype Gate = Idle | Busy

  /** `Call`: the wrapper is invoked and `func`, if it runs, returns normally.
      `CallThrows`: the wrapper is invoked and `func`, if it runs, throws.
      `TimerExpired`: the scheduled `inThrottle = false` runs. */
  datatype Event = Call | CallThrows | TimerExpired

  datatype Step = Step(gate: Gate, forwarded: bool)

  /** One event. */
  function Next(g: Gate, e: Event): (r: Step)
    ensures r.forwarded <==> e != TimerExpired && g == Idle
    ensures e == Call ==> r.gate == Busy
    ensures e == CallThrows ==> r.gate == g
    ensures e == TimerExpired ==> r.gate == Idle
  {
    match e
    case Call => if g == Idle then Step(Busy, true) else Step(Busy, false)
    case CallThrows => if g == Idle then Step(Idle, true) else Step(g, false)
    case TimerExpired => Step(Idle, false)
  }

  /** The gate after a run of events. */
  function GateAfter(g: Gate, events: seq<Event>): Gate
    decreases |events|
  {
    if events == [] then g else GateAfter(Next(g, events[0]).gate, events[1..])
  }

  /** Number of calls passed on to `func` during a run. */
  function Forwarded(g: Gate, events: seq<Event>): nat
    decreases |events|
  {
    if events == [] then 0
    else (if Next(g, events[0]).forwarded then 1 else 0) + Forwarded(Next(g, events[0]).gate, events[1..])
  }

  /** Number of events of kind `k` in a run. */
  function Occurrences(events: seq<Event>, k: Event): nat {
    if events == [] then 0 else (if events[0] == k then 1 else 0) + Occurrences(events[1..], k)
  }

  /** At most one forwarded call per busy window: a run passes on no more calls
      than it has timer expiries and throwing calls, plus one if the gate
      started idle. */
  lemma {:induction false} ForwardedBound(g: Gate, events: seq<Event>)
    ensures Forwarded(g, events) + (if GateAfter(g, events) == Busy then 0 else 1)
         <= Occurrences(events, TimerExpired) + Occurrences(events, CallThrows) + (if g == Idle then 1 else 0)
    decreases |events|
  {
    if events != [] {
      ForwardedBound(Next(g, events[0]).gate, events[1..]);
    }
  }

  /** Without a timer expiry or a throwing call, a run passes on at most one call. */
  lemma NoTimerAtMostOne(g: Gate, events: seq<Event>)
    requires forall i :: 0 <= i < |events| ==> events[i] == Call
    ensures Forwarded(g, events) <= 1
  {
    NoneOfOtherKinds(events, TimerExpired);
    NoneOfOtherKinds(events, CallThrows);
    ForwardedBound(g, events);
  }

  lemma {:induction false} NoneOfOtherKinds(events: seq<Event>, k: Event)
    requires k != Call
    requires forall i :: 0 <= i < |events| ==> events[i] == Call
    ensures Occurrences(events, k) == 0
  {
    if events != [] {
      NoneOfOtherKinds(events[1..], k);
    }
  }

  /** Once a call has been passed on, the gate stays busy until a timer expires:
      every later call before that is dropped, whether or not `func` would
      have thrown. */
  lemma {:induction false} BusyUntilTimer(events: seq<Event>)
    requires forall i :: 0 <= i < |events| ==> events[i] != TimerExpired
    ensures GateAfter(Busy, events) == Busy
    ensures Forwarded(Busy, events) == 0
    decreases |events|
  {
    if events != [] {
      BusyUntilTimer(events[1..]);
    }
  }

  /** Only the timer reopens the gate. */
  lemma OnlyTimerReopens(g: Gate, e: Event)
    requires g == Busy && Next(g, e).gate == Idle
    ensures e == TimerExpired
  {
  }

  /** A throwing `func` never closes the gate: from idle, a run of throwing
      calls passes every one of them on. */
  lemma {:induction false} ThrowingCallsAllForwarded(events: seq<Event>)
    requires forall i :: 0 <= i < |events| ==> events[i] == CallThrows
    ensures GateAfter(Idle, events) == Idle
    ensures Forwarded(Idle, events) == |events|
    decreases |events|
  {
    if events != [] {
      ThrowingCallsAllForwarded(events[1..]);
    }
  }
}
