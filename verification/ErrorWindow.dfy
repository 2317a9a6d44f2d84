/** The initialising window of net/brpc/circuit_breaker.cpp: concurrent OnCallEnd calls on two atomic counters. */
module ErrorWindow {
  import opened Basics

  /**
    Where a call stands; healthy is the verdict of the moving averages, whatever it is. A call that
    failed while the window was initialising returns as Failed, with its number among those.
  */
  datatype Call =
    | Arrived(failed: bool, healthy: bool)
    | Sampling(failed: bool, healthy: bool)
    | Erring
    | Done(failed: bool, initialising: bool, result: bool)
    | Failed(number: nat, result: bool)

  datatype State = State(samples: nat, errors: nat, calls: seq<Call>)

  function Limit(window: nat, percent: nat): (n: nat) { window * percent / 100 }

  /** One atomic access: load the samples, fetch and add to them, fetch and add to the errors. */
  function Access(s: State, t: nat, window: nat, percent: nat): (s': State)
    requires t < |s.calls|
  {
    match s.calls[t]
    case Arrived(failed, healthy) =>
      if s.samples < window then s.(calls := s.calls[t := Sampling(failed, healthy)])
      else s.(calls := s.calls[t := Done(failed, false, healthy)])
    case Sampling(failed, healthy) =>
      var c := if s.samples >= window then Done(failed, false, healthy)
               else if failed then Erring else Done(false, true, true);
      s.(samples := s.samples + 1, calls := s.calls[t := c])
    case Erring =>
      s.(errors := s.errors + 1, calls := s.calls[t := Failed(s.errors, s.errors < Limit(window, percent))])
    case Done(_, _, _) => s
    case Failed(_, _) => s
  }

  function Exec(s: State, schedule: seq<nat>, window: nat, percent: nat): (s': State)
    ensures |s'.calls| == |s.calls|
    decreases |schedule|
  {
    if schedule == [] then s
    else
      var t := schedule[0];
      Exec(if t < |s.calls| then Access(s, t, window, percent) else s, schedule[1..], window, percent)
  }

  /** Calls that have just come in, successes and failures in any mixture. */
  predicate Fresh(s: State) {
    s.samples == 0 && s.errors == 0 && forall t :: 0 <= t < |s.calls| ==> s.calls[t].Arrived?
  }

  predicate Complete(s: State) {
    forall t :: 0 <= t < |s.calls| ==> s.calls[t].Done? || s.calls[t].Failed?
  }

  // ---- Counting calls ----

  predicate Initialising(c: Call) { c.Erring? || c.Failed? || (c.Done? && c.initialising) }

  function HasNumber(k: nat): (p: Call -> bool) { (c: Call) => c.Failed? && c.number == k }

  predicate Unhealthy(c: Call) { Initialising(c) && !c.Erring? && !c.result }

  // ---- What every access keeps ----

  function Over(a: int, b: int): (m: int) { if a > b then a - b else 0 }

  ghost predicate Inv(s: State, window: nat, percent: nat) {
    && Number(s.calls, Initialising) == Min(window, s.samples)
    && (forall k: nat :: Number(s.calls, HasNumber(k)) == if k < s.errors then 1 else 0)
    && Number(s.calls, Unhealthy) == Over(s.errors, Limit(window, percent))
    && (forall t :: 0 <= t < |s.calls| && Initialising(s.calls[t]) && !s.calls[t].Erring? ==>
          s.calls[t].result == (s.calls[t].Done? || s.calls[t].number < Limit(window, percent)))
    && forall t :: 0 <= t < |s.calls| && s.calls[t].Done? && !s.calls[t].initialising ==> s.samples >= window
  }

  lemma AccessKeepsInv(s: State, t: nat, window: nat, percent: nat)
    requires t < |s.calls| && Inv(s, window, percent)
    ensures Inv(Access(s, t, window, percent), window, percent)
  {
    hide Number, Limit;
    var c := Access(s, t, window, percent).calls[t];
    NumberSet(s.calls, Initialising, t, c);
    forall k: nat
      ensures Number(s.calls[t := c], HasNumber(k)) ==
              Number(s.calls, HasNumber(k))
              + (if HasNumber(k)(c) then 1 else 0) - (if HasNumber(k)(s.calls[t]) then 1 else 0)
    {
      NumberSet(s.calls, HasNumber(k), t, c);
    }
    NumberSet(s.calls, Unhealthy, t, c);
  }

  lemma {:induction false} ExecKeepsInv(s: State, schedule: seq<nat>, window: nat, percent: nat)
    requires Inv(s, window, percent)
    ensures Inv(Exec(s, schedule, window, percent), window, percent)
    decreases |schedule|
  {
    if schedule != [] {
      hide Access, Inv;
      var t := schedule[0];
      if t < |s.calls| {
        AccessKeepsInv(s, t, window, percent);
      }
      ExecKeepsInv(if t < |s.calls| then Access(s, t, window, percent) else s, schedule[1..], window, percent);
    }
  }

  /** How a call relates to what it came in as. */
  predicate From(c0: Call, c: Call)
    requires c0.Arrived?
  {
    match c
    case Arrived(failed, healthy) => c == c0
    case Sampling(failed, healthy) => failed == c0.failed && healthy == c0.healthy
    case Erring => c0.failed
    case Failed(_, _) => c0.failed
    case Done(failed, initialising, result) =>
      failed == c0.failed && if initialising then !failed && result else result == c0.healthy
  }

  lemma {:induction false} ExecKeepsFrom(s0: State, s: State, schedule: seq<nat>, window: nat, percent: nat)
    requires Fresh(s0) && |s.calls| == |s0.calls|
    requires forall t :: 0 <= t < |s.calls| ==> From(s0.calls[t], s.calls[t])
    ensures forall t :: 0 <= t < |s.calls| ==> From(s0.calls[t], Exec(s, schedule, window, percent).calls[t])
    decreases |schedule|
  {
    if schedule != [] {
      var t := schedule[0];
      ExecKeepsFrom(s0, if t < |s.calls| then Access(s, t, window, percent) else s, schedule[1..], window, percent);
    }
  }

  lemma Threshold(n: nat, p: nat)
    ensures n >= p / 100 <==> 100 * (n + 1) > p
  {
  }

  /**
    However concurrent calls interleave, once all have returned exactly min(window, calls) of them
    were classed as initialising. The failures among those are numbered without gaps or repeats, and
    exactly the ones that took the failures above percent/100 of the window were reported unhealthy.
  */
  lemma InitialisingCalls(s: State, schedule: seq<nat>, window: nat, percent: nat)
    requires Fresh(s) && Complete(Exec(s, schedule, window, percent))
    ensures var s' := Exec(s, schedule, window, percent);
            && Number(s'.calls, Initialising) == Min(window, |s'.calls|)
            && (forall k: nat :: Number(s'.calls, HasNumber(k)) == if k < s'.errors then 1 else 0)
            && (forall t :: 0 <= t < |s'.calls| ==> From(s.calls[t], s'.calls[t]))
            && (forall t :: 0 <= t < |s'.calls| && Initialising(s'.calls[t]) ==>
                  (!s'.calls[t].result <==> s'.calls[t].Failed? && 100 * (s'.calls[t].number + 1) > window * percent))
            && Number(s'.calls, Unhealthy) == Over(s'.errors, Limit(window, percent))
  {
    NumberNone(s.calls, Initialising);
    forall k: nat ensures Number(s.calls, HasNumber(k)) == 0 {
      NumberNone(s.calls, HasNumber(k));
    }
    NumberNone(s.calls, Unhealthy);
    ExecKeepsInv(s, schedule, window, percent);
    ExecKeepsFrom(s, s, schedule, window, percent);
    var s' := Exec(s, schedule, window, percent);
    forall t | 0 <= t < |s'.calls| && s'.calls[t].Failed?
      ensures s'.calls[t].number >= Limit(window, percent) <==> 100 * (s'.calls[t].number + 1) > window * percent
    {
      Threshold(s'.calls[t].number, window * percent);
    }
    if t :| 0 <= t < |s'.calls| && !Initialising(s'.calls[t]) {
      assert s'.samples >= window;
    } else {
      NumberAll(s'.calls, Initialising);
    }
  }
}
