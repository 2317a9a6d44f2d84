/** The latch and the isolation back-off of net/brpc/circuit_breaker.cpp, as atomic accesses and as an object. */
module CircuitBreaker {
  import opened Basics

  const ELIMIT := 2004

  // ---- Concurrent calls ----

  /** Where a thread stands in OnCallEnd or MarkAsBroken. */
  datatype Thread =
    | Checking
    | Judging
    | Breaking
    | Counting
    | Timing
    | Loading(now: int)
    | Comparing(now: int, duration: int)
    | Storing(value: int)
    | Returned(result: bool)

  /** breaks counts how often the latch went from open to broken. */
  datatype State = State(broken: bool, breaks: nat, times: nat, duration: int, lastReset: int, threads: seq<Thread>)

  datatype Action =
    | OnCallEnd(code: int)
    | MarkAsBroken
    | Access(thread: nat, verdict: bool, now: int)
    | ResetTime(now: int)
    | ResetLatch

  function Doubled(duration: int, elapsed: int, min: int, max: int): (d: int) {
    if elapsed < max then Min(duration * 2, max) else min
  }

  /** One atomic access of a thread; verdict is what the two error windows say, now what the clock says. */
  function Advance(s: State, t: nat, verdict: bool, now: int, min: int, max: int): (s': State)
    requires t < |s.threads|
  {
    var to := (p: Thread) => s.threads[t := p];
    match s.threads[t]
    case Checking => s.(threads := to(if s.broken then Returned(false) else Judging))
    case Judging => s.(threads := to(if verdict then Returned(true) else Breaking))
    case Breaking =>
      if s.broken then s.(threads := to(Returned(false)))
      else s.(broken := true, breaks := s.breaks + 1, threads := to(Counting))
    case Counting => s.(times := s.times + 1, threads := to(Timing))
    case Timing => s.(threads := to(Loading(now)))
    case Loading(at) => s.(threads := to(Comparing(at, s.duration)))
    case Comparing(at, d) => s.(threads := to(Storing(Doubled(d, at - s.lastReset, min, max))))
    case Storing(v) => s.(duration := v, threads := to(Returned(false)))
    case Returned(_) => s
  }

  function Step(s: State, a: Action, min: int, max: int): (s': State) {
    match a
    case OnCallEnd(code) => s.(threads := s.threads + [if code == ELIMIT then Returned(true) else Checking])
    case MarkAsBroken => s.(threads := s.threads + [Breaking])
    case Access(t, verdict, now) => if t < |s.threads| then Advance(s, t, verdict, now, min, max) else s
    case ResetTime(now) => s.(lastReset := now)
    case ResetLatch => s.(broken := false)
  }

  function Exec(s: State, run: seq<Action>, min: int, max: int): (s': State)
    decreases |run|
  {
    if run == [] then s else Exec(Step(s, run[0], min, max), run[1..], min, max)
  }

  function Initial(min: int): (s: State) { State(false, 0, 0, min, 0, []) }

  // ---- Durations and counts, in every interleaving ----

  predicate Waits(p: Thread) { p.Counting? }

  predicate InRange(p: Thread, min: int, max: int) {
    match p
    case Comparing(_, d) => min <= d <= max
    case Storing(v) => min <= v <= max
    case _ => true
  }

  predicate Inv(s: State, min: int, max: int) {
    && min <= s.duration <= max
    && (forall t :: 0 <= t < |s.threads| ==> InRange(s.threads[t], min, max))
    && s.times + Number(s.threads, Waits) == s.breaks
  }

  lemma StepKeepsInv(s: State, a: Action, min: int, max: int)
    requires 0 < min <= max && Inv(s, min, max)
    ensures Inv(Step(s, a, min, max), min, max)
  {
    hide Number;
    match a
    case OnCallEnd(code) => NumberMore(s.threads, Waits, if code == ELIMIT then Returned(true) else Checking);
    case MarkAsBroken => NumberMore(s.threads, Waits, Breaking);
    case Access(t, verdict, now) =>
      if t < |s.threads| {
        hide Inv, Advance;
        AdvanceKeepsInv(s, t, verdict, now, min, max);
      }
    case ResetTime(now) =>
    case ResetLatch =>
  }

  lemma AdvanceKeepsInv(s: State, t: nat, verdict: bool, now: int, min: int, max: int)
    requires 0 < min <= max && Inv(s, min, max) && t < |s.threads|
    ensures Inv(Advance(s, t, verdict, now, min, max), min, max)
  {
    hide Number;
    NumberSet(s.threads, Waits, t, Advance(s, t, verdict, now, min, max).threads[t]);
  }

  predicate Quiet(s: State) {
    forall t :: 0 <= t < |s.threads| ==> s.threads[t].Returned?
  }

  lemma {:induction false} ExecKeepsInv(s: State, run: seq<Action>, min: int, max: int)
    requires 0 < min <= max && Inv(s, min, max)
    ensures Inv(Exec(s, run, min, max), min, max)
    decreases |run|
  {
    if run != [] {
      hide Inv, Step;
      StepKeepsInv(s, run[0], min, max);
      ExecKeepsInv(Step(s, run[0], min, max), run[1..], min, max);
    }
  }

  /**
    Over every run, resets interleaved with calls included, the isolation duration stays within its
    bounds, and once the threads are through the node was isolated once per break, however many raced.
  */
  lemma IsolationLaws(run: seq<Action>, min: int, max: int)
    requires 0 < min <= max
    ensures var s := Exec(Initial(min), run, min, max);
            min <= s.duration <= max && s.times <= s.breaks && (Quiet(s) ==> s.times == s.breaks)
  {
    ExecKeepsInv(Initial(min), run, min, max);
    var s := Exec(Initial(min), run, min, max);
    if Quiet(s) {
      NumberNone(s.threads, Waits);
    }
  }

  // ---- The latch ----

  predicate NoReset(run: seq<Action>) {
    forall k :: 0 <= k < |run| ==> !run[k].ResetLatch?
  }

  /** A thread that did not come in before the latch went broken. */
  predicate Late(p: Thread, code: int) {
    if code == ELIMIT then p == Returned(true) else p == Checking || p == Returned(false)
  }

  /**
    While the latch is broken and not reset, it stays broken without a further break, and whoever
    comes in is turned away: false for every code but ELIMIT, true for that one.
  */
  lemma {:induction false} BrokenTurnsAway(s: State, run: seq<Action>, t: nat, code: int, min: int, max: int)
    requires s.broken && NoReset(run) && t < |s.threads| && Late(s.threads[t], code)
    ensures var s' := Exec(s, run, min, max);
            s'.broken && s'.breaks == s.breaks && t < |s'.threads| && Late(s'.threads[t], code)
    decreases |run|
  {
    if run != [] {
      BrokenTurnsAway(Step(s, run[0], min, max), run[1..], t, code, min, max);
    }
  }

  lemma LateCallsReturnFalse(s: State, code: int, run: seq<Action>, min: int, max: int)
    requires s.broken && NoReset(run)
    ensures var s' := Exec(s, [OnCallEnd(code)] + run, min, max);
            var t := |s.threads|;
            && t < |s'.threads| && s'.breaks == s.breaks
            && (s'.threads[t].Returned? ==> s'.threads[t].result == (code == ELIMIT))
  {
    var s1 := Step(s, OnCallEnd(code), min, max);
    assert ([OnCallEnd(code)] + run)[1..] == run;
    BrokenTurnsAway(s1, run, |s.threads|, code, min, max);
  }

  /** Between two resets the latch breaks once or not at all, however many threads try. */
  lemma {:induction false} OneBreakPerEpoch(s: State, run: seq<Action>, min: int, max: int)
    requires NoReset(run)
    ensures var s' := Exec(s, run, min, max);
            s'.breaks == s.breaks + (if s'.broken && !s.broken then 1 else 0) && (s.broken ==> s'.broken)
    decreases |run|
  {
    if run != [] {
      OneBreakPerEpoch(Step(s, run[0], min, max), run[1..], min, max);
    }
  }

  // ---- The exponential back-off ----

  function Pow2(k: nat): (p: nat) { if k == 0 then 1 else 2 * Pow2(k - 1) }

  /** The isolation duration after breaks that came so long after the reset before each. */
  function Isolation(d0: int, lags: seq<int>, min: int, max: int): (d: int)
    decreases |lags|
  {
    if lags == [] then d0
    else
      var n := |lags| - 1;
      if lags[n] >= max then min else Min(2 * Isolation(d0, lags[..n], min, max), max)
  }

  /** Breaks in close succession double the duration up to its bound. */
  lemma {:induction false} PromptBreaksDouble(d0: int, lags: seq<int>, min: int, max: int)
    requires 0 < d0 <= max && forall lag <- lags :: lag < max
    ensures Isolation(d0, lags, min, max) == Min(d0 * Pow2(|lags|), max)
    decreases |lags|
  {
    if lags != [] {
      var n := |lags| - 1;
      assert lags[n] in lags && forall lag <- lags[..n] :: lag in lags;
      PromptBreaksDouble(d0, lags[..n], min, max);
      assert d0 * Pow2(n + 1) == 2 * (d0 * Pow2(n));
    }
  }

  /** A late break starts over from the lower bound, whatever came before it. */
  lemma {:induction false} LateBreakStartsOver(d0: int, before: seq<int>, late: int, after: seq<int>,
                                               min: int, max: int)
    requires late >= max
    ensures Isolation(d0, before + [late] + after, min, max) == Isolation(min, after, min, max)
    decreases |after|
  {
    var n := |after| - 1;
    if after == [] {
      assert before + [late] + after == before + [late];
    } else {
      LateBreakStartsOver(d0, before, late, after[..n], min, max);
      assert (before + [late] + after)[..|before| + 1 + n] == before + [late] + after[..n];
    }
  }

  /** How long after the reset a break comes, when it reads the clock. */
  function Lag(s: State, a: Action): (lag: seq<int>) {
    if a.Access? && a.thread < |s.threads| && s.threads[a.thread].Timing? then [a.now - s.lastReset] else []
  }

  function Lags(s: State, run: seq<Action>, min: int, max: int): (lags: seq<int>)
    decreases |run|
  {
    if run == [] then [] else Lag(s, run[0]) + Lags(Step(s, run[0], min, max), run[1..], min, max)
  }

  /** Resets come only when nobody is in a call. */
  predicate Legal(s: State, run: seq<Action>, min: int, max: int)
    decreases |run|
  {
    run == [] || ((run[0].ResetTime? || run[0].ResetLatch? ==> Quiet(s))
                  && Legal(Step(s, run[0], min, max), run[1..], min, max))
  }

  /** The thread that broke the latch, until it has stored the new duration. */
  predicate Winner(p: Thread) {
    p.Counting? || p.Timing? || p.Loading? || p.Comparing? || p.Storing?
  }

  predicate OneWinner(threads: seq<Thread>) {
    forall t, u :: 0 <= t < |threads| && 0 <= u < |threads| && Winner(threads[t]) && Winner(threads[u]) ==> t == u
  }

  /** What the winner has in hand: the duration before its break, or the one to store. */
  predicate Pace(s: State, p: Thread, d0: int, lags: seq<int>, min: int, max: int) {
    var n := |lags| - 1;
    match p
    case Loading(now) =>
      n >= 0 && lags[n] == now - s.lastReset && s.duration == Isolation(d0, lags[..n], min, max)
    case Comparing(now, d) => n >= 0 && lags[n] == now - s.lastReset && d == Isolation(d0, lags[..n], min, max)
    case Storing(v) => v == Isolation(d0, lags, min, max)
    case _ => s.duration == Isolation(d0, lags, min, max)
  }

  /** The breaks since the start, but for a winner that has not read the clock yet, are those in lags. */
  predicate Paced(s: State, d0: int, base: nat, lags: seq<int>, min: int, max: int) {
    && OneWinner(s.threads)
    && (forall t :: 0 <= t < |s.threads| && Winner(s.threads[t]) ==>
          && s.broken && Pace(s, s.threads[t], d0, lags, min, max)
          && s.breaks == base + |lags| + if s.threads[t].Counting? || s.threads[t].Timing? then 1 else 0)
    && ((forall t :: 0 <= t < |s.threads| ==> !Winner(s.threads[t])) ==>
          s.breaks == base + |lags| && s.duration == Isolation(d0, lags, min, max))
  }

  /** The winner goes its way; nobody else is in its place. */
  lemma WinnerKeepsPace(s: State, a: Action, d0: int, base: nat, lags: seq<int>, min: int, max: int)
    requires Paced(s, d0, base, lags, min, max) && a.Access? && a.thread < |s.threads| && Winner(s.threads[a.thread])
    ensures Paced(Step(s, a, min, max), d0, base, lags + Lag(s, a), min, max)
  {
    var t, s' := a.thread, Step(s, a, min, max);
    assert forall u :: 0 <= u < |s.threads| && u != t ==> s'.threads[u] == s.threads[u] && !Winner(s.threads[u]);
    assert (lags + Lag(s, a))[..|lags|] == lags;
    assert Lag(s, a) == [] ==> lags + Lag(s, a) == lags;
    assert Winner(s'.threads[t]) || s'.duration == Isolation(d0, lags, min, max);
  }

  lemma LoserKeepsPace(s: State, t: nat, verdict: bool, now: int,
                       d0: int, base: nat, lags: seq<int>, min: int, max: int)
    requires Paced(s, d0, base, lags, min, max) && t < |s.threads| && !Winner(s.threads[t])
    ensures Paced(Advance(s, t, verdict, now, min, max), d0, base, lags, min, max)
  {
    hide Isolation;
    var s' := Advance(s, t, verdict, now, min, max);
    assert forall u :: 0 <= u < |s.threads| && u != t ==> s'.threads[u] == s.threads[u];
    if Winner(s'.threads[t]) {
      assert forall u :: 0 <= u < |s.threads| ==> !Winner(s.threads[u]);
    } else if forall u :: 0 <= u < |s.threads| ==> !Winner(s'.threads[u]) {
      assert forall u :: 0 <= u < |s.threads| ==> !Winner(s.threads[u]);
    }
  }

  lemma StepKeepsPace(s: State, a: Action, d0: int, base: nat, lags: seq<int>, min: int, max: int)
    requires Paced(s, d0, base, lags, min, max) && (a.ResetTime? || a.ResetLatch? ==> Quiet(s))
    ensures Paced(Step(s, a, min, max), d0, base, lags + Lag(s, a), min, max)
  {
    hide Isolation;
    if a.Access? && a.thread < |s.threads| && Winner(s.threads[a.thread]) {
      hide *;
      WinnerKeepsPace(s, a, d0, base, lags, min, max);
    } else {
      assert lags + Lag(s, a) == lags;
      match a
      case Access(t, verdict, now) =>
        if t < |s.threads| {
          hide Advance, Paced;
          LoserKeepsPace(s, t, verdict, now, d0, base, lags, min, max);
        }
      case OnCallEnd(code) =>
        NewcomerKeepsPace(s, if code == ELIMIT then Returned(true) else Checking, d0, base, lags, min, max);
      case MarkAsBroken => NewcomerKeepsPace(s, Breaking, d0, base, lags, min, max);
      case ResetTime(now) =>
      case ResetLatch =>
    }
  }

  lemma NewcomerKeepsPace(s: State, p: Thread, d0: int, base: nat, lags: seq<int>, min: int, max: int)
    requires Paced(s, d0, base, lags, min, max) && !Winner(p)
    ensures Paced(s.(threads := s.threads + [p]), d0, base, lags, min, max)
  {
    hide Isolation, Winner;
    var s' := s.(threads := s.threads + [p]);
    if forall t :: 0 <= t < |s'.threads| ==> !Winner(s'.threads[t]) {
      assert forall t :: 0 <= t < |s.threads| ==> s.threads[t] == s'.threads[t];
    }
  }

  lemma {:induction false} ExecKeepsPace(s: State, run: seq<Action>,
                                         d0: int, base: nat, lags: seq<int>, min: int, max: int)
    requires Paced(s, d0, base, lags, min, max) && Legal(s, run, min, max)
    ensures Paced(Exec(s, run, min, max), d0, base, lags + Lags(s, run, min, max), min, max)
    decreases |run|
  {
    hide Paced, Step, Quiet, Lag;
    if run == [] {
      assert lags + Lags(s, run, min, max) == lags;
    } else {
      var s' := Step(s, run[0], min, max);
      StepKeepsPace(s, run[0], d0, base, lags, min, max);
      ExecKeepsPace(s', run[1..], d0, base, lags + Lag(s, run[0]), min, max);
      assert lags + Lag(s, run[0]) + Lags(s', run[1..], min, max) == lags + Lags(s, run, min, max);
    }
  }

  /**
    However calls interleave, if resets wait for the calls in progress, then every break reads the clock
    once, and the isolation duration is what the lags of the breaks make of it, one after another.
  */
  lemma IsolationFollowsLags(s: State, run: seq<Action>, min: int, max: int)
    requires Quiet(s) && Legal(s, run, min, max) && Quiet(Exec(s, run, min, max))
    ensures var s', lags := Exec(s, run, min, max), Lags(s, run, min, max);
            s'.breaks == s.breaks + |lags| && s'.duration == Isolation(s.duration, lags, min, max)
  {
    hide Exec, Lags, Legal;
    ExecKeepsPace(s, run, s.duration, s.breaks, [], min, max);
    assert [] + Lags(s, run, min, max) == Lags(s, run, min, max);
  }

  /** If every break comes within max of the reset before it, k breaks turn the duration d0 into min(d0 * 2^k, max). */
  lemma ExponentialBackoff(s: State, run: seq<Action>, min: int, max: int)
    requires 0 < s.duration <= max && Quiet(s) && Legal(s, run, min, max) && Quiet(Exec(s, run, min, max))
    requires forall lag <- Lags(s, run, min, max) :: lag < max
    ensures var s' := Exec(s, run, min, max);
            s'.breaks >= s.breaks && s'.duration == Min(s.duration * Pow2(s'.breaks - s.breaks), max)
  {
    hide Exec, Lags, Legal, Quiet;
    IsolationFollowsLags(s, run, min, max);
    PromptBreaksDouble(s.duration, Lags(s, run, min, max), min, max);
  }

  /**
    If break k of the run comes max or more after its reset, and the ones behind it do not, the duration ends
    at min doubled once for each of those, whatever it had grown to: at min itself when break k is the last.
  */
  lemma BackoffStartsOver(s: State, run: seq<Action>, k: nat, min: int, max: int)
    requires 0 < min <= max && Quiet(s) && Legal(s, run, min, max) && Quiet(Exec(s, run, min, max))
    requires var lags := Lags(s, run, min, max);
             k < |lags| && lags[k] >= max && forall j :: k < j < |lags| ==> lags[j] < max
    ensures var s' := Exec(s, run, min, max);
            s'.breaks > s.breaks + k && s'.duration == Min(min * Pow2(s'.breaks - s.breaks - 1 - k), max)
  {
    hide Exec, Lags, Legal, Quiet;
    IsolationFollowsLags(s, run, min, max);
    var lags := Lags(s, run, min, max);
    assert lags == lags[..k] + [lags[k]] + lags[k + 1..];
    LateBreakStartsOver(s.duration, lags[..k], lags[k], lags[k + 1..], min, max);
    PromptBreaksDouble(min, lags[k + 1..], min, max);
  }

  // ---- The object, called by one thread at a time ----

  /** A thread makes n accesses in a row. */
  function Turns(t: nat, n: nat, verdict: bool, now: int): (run: seq<Action>) {
    seq(n, _ => Access(t, verdict, now))
  }

  /** The state with one thread elsewhere. */
  function Put(s: State, t: nat, p: Thread): (s': State)
    requires t < |s.threads|
  {
    s.(threads := s.threads[t := p])
  }

  lemma PutTwice(s: State, t: nat, p: Thread, q: Thread)
    requires t < |s.threads|
    ensures Put(Put(s, t, p), t, q) == Put(s, t, q) && Put(s, t, p).threads[t] == p
  {
    assert s.threads[t := p][t := q] == s.threads[t := q];
  }

  lemma Turn(s: State, t: nat, n: nat, verdict: bool, now: int, min: int, max: int)
    requires t < |s.threads| && n > 0
    ensures Exec(s, Turns(t, n, verdict, now), min, max) ==
            Exec(Advance(s, t, verdict, now, min, max), Turns(t, n - 1, verdict, now), min, max)
  {
    hide Advance;
    var run := Turns(t, n, verdict, now);
    assert run[0] == Access(t, verdict, now) && run[1..] == Turns(t, n - 1, verdict, now);
  }

  /** A thread that has returned stays put. */
  lemma {:induction false} Rests(s: State, t: nat, n: nat, verdict: bool, now: int, min: int, max: int)
    requires t < |s.threads| && s.threads[t].Returned?
    ensures Exec(s, Turns(t, n, verdict, now), min, max) == s
  {
    if n > 0 {
      Turn(s, t, n, verdict, now, min, max);
      Rests(s, t, n - 1, verdict, now, min, max);
    }
  }

  /** The thread that broke the latch counts it and stores the next duration. */
  lemma WinnerAlone(s: State, t: nat, verdict: bool, now: int, min: int, max: int)
    requires t < |s.threads| && s.threads[t].Counting?
    ensures Exec(s, Turns(t, 5, verdict, now), min, max) ==
            Put(s, t, Returned(false)).(times := s.times + 1,
                                        duration := Doubled(s.duration, now - s.lastReset, min, max))
  {
    hide Exec, Doubled, Turns;
    var d := Doubled(s.duration, now - s.lastReset, min, max);
    var c := s.(times := s.times + 1);
    Turn(s, t, 5, verdict, now, min, max);
    Turn(Put(c, t, Timing), t, 4, verdict, now, min, max);
    PutTwice(c, t, Timing, Loading(now));
    Turn(Put(c, t, Loading(now)), t, 3, verdict, now, min, max);
    PutTwice(c, t, Loading(now), Comparing(now, s.duration));
    Turn(Put(c, t, Comparing(now, s.duration)), t, 2, verdict, now, min, max);
    PutTwice(c, t, Comparing(now, s.duration), Storing(d));
    Turn(Put(c, t, Storing(d)), t, 1, verdict, now, min, max);
    PutTwice(c, t, Storing(d), Returned(false));
    Rests(Put(c, t, Returned(false)).(duration := d), t, 0, verdict, now, min, max);
  }

  /** What marking comes to when nobody interferes. */
  function Marked(s: State, t: nat, now: int, min: int, max: int): (s': State)
    requires t < |s.threads|
  {
    var r := Put(s, t, Returned(false));
    if s.broken then r
    else r.(broken := true, breaks := s.breaks + 1, times := s.times + 1,
            duration := Doubled(s.duration, now - s.lastReset, min, max))
  }

  lemma MarkAlone(s: State, t: nat, verdict: bool, now: int, min: int, max: int)
    requires t < |s.threads| && s.threads[t].Breaking?
    ensures Exec(s, Turns(t, 6, verdict, now), min, max) == Marked(s, t, now, min, max)
  {
    hide Exec, Doubled, Turns;
    Turn(s, t, 6, verdict, now, min, max);
    if s.broken {
      Rests(Put(s, t, Returned(false)), t, 5, verdict, now, min, max);
    } else {
      var c := s.(broken := true, breaks := s.breaks + 1);
      WinnerAlone(Put(c, t, Counting), t, verdict, now, min, max);
      PutTwice(c, t, Counting, Returned(false));
    }
  }

  lemma CallAlone(s: State, t: nat, verdict: bool, now: int, min: int, max: int)
    requires t < |s.threads| && s.threads[t].Checking?
    ensures Exec(s, Turns(t, 8, verdict, now), min, max) ==
            if !s.broken && verdict then Put(s, t, Returned(true)) else Marked(s, t, now, min, max)
  {
    hide Exec, Doubled, Turns;
    Turn(s, t, 8, verdict, now, min, max);
    if s.broken {
      Rests(Put(s, t, Returned(false)), t, 7, verdict, now, min, max);
    } else {
      Turn(Put(s, t, Judging), t, 7, verdict, now, min, max);
      PutTwice(s, t, Judging, if verdict then Returned(true) else Breaking);
      if verdict {
        Rests(Put(s, t, Returned(true)), t, 6, verdict, now, min, max);
      } else {
        MarkAlone(Put(s, t, Breaking), t, verdict, now, min, max);
        PutTwice(s, t, Breaking, Returned(false));
      }
    }
  }

  lemma Comes(s: State, a: Action, run: seq<Action>, min: int, max: int)
    ensures Exec(s, [a] + run, min, max) == Exec(Step(s, a, min, max), run, min, max)
  {
    assert ([a] + run)[1..] == run;
  }

  lemma NewcomerPut(s: State, p: Thread, q: Thread)
    ensures Put(s.(threads := s.threads + [p]), |s.threads|, q) == s.(threads := s.threads + [q])
  {
    assert (s.threads + [p])[|s.threads| := q] == s.threads + [q];
  }

  class Breaker {
    const min: int
    const max: int
    var lastReset: int
    var duration: int
    var times: nat
    var broken: bool
    ghost var threads: seq<Thread>  // the calls served so far

    /** The machine above, between calls. */
    ghost function Machine(): (s: State)
      reads this
    {
      State(broken, times, times, duration, lastReset, threads)
    }

    ghost predicate Valid()
      reads this
    {
      0 < min <= max && Inv(Machine(), min, max) && Quiet(Machine())
    }

    constructor (min: int, max: int)
      requires 0 < min <= max
      ensures Valid() && Machine() == Initial(min) && this.min == min && this.max == max
    {
      this.min, this.max := min, max;
      lastReset, duration, times, broken, threads := 0, min, 0, false, [];
    }

    method UpdateIsolationDuration(now: int)
      requires 0 < min <= max && min <= duration <= max
      modifies `duration
      ensures now - lastReset < max ==> duration == Min(2 * old(duration), max)
      ensures now - lastReset >= max ==> duration == min
      ensures min <= duration <= max
    {
      var d := duration;
      if now - lastReset < max {
        d := if d * 2 < max then d * 2 else max;
      } else {
        d := min;
      }
      duration := d;
    }

    /** The body of MarkAsBroken, on behalf of a thread that returns false. */
    method Break(now: int)
      requires 0 < min <= max && min <= duration <= max
      modifies `broken, `times, `duration
      ensures broken
      ensures old(broken) ==> times == old(times) && duration == old(duration)
      ensures !old(broken) ==>
                times == old(times) + 1 && duration == Isolation(old(duration), [now - lastReset], min, max)
    {
      var was := broken;
      broken := true;
      if !was {
        times := times + 1;
        UpdateIsolationDuration(now);
      }
    }

    /** The same as a thread of the machine that marks it and runs through undisturbed. */
    method MarkAsBroken(now: int)
      requires Valid()
      modifies `broken, `times, `duration, `threads
      ensures Valid()
      ensures broken && (old(broken) ==> times == old(times) && duration == old(duration))
      ensures !old(broken) ==>
                times == old(times) + 1 && duration == Isolation(old(duration), [now - lastReset], min, max)
      ensures Machine() ==
              Exec(old(Machine()), [Action.MarkAsBroken] + Turns(|old(threads)|, 6, false, now), min, max)
    {
      hide Exec, Turns, Inv, Quiet;
      ghost var s, t := Machine(), |threads|;
      assert min <= duration <= max by { InvBounds(s, min, max); }
      Comes(s, Action.MarkAsBroken, Turns(t, 6, false, now), min, max);
      MarkAlone(s.(threads := threads + [Breaking]), t, false, now, min, max);
      NewcomerPut(s, Breaking, Returned(false));
      Break(now);
      threads := threads + [Returned(false)];
      SoloKeepsValid(s, Action.MarkAsBroken, 6, false, now, min, max);
      QuietMore(s, Returned(false));
      SameThreads(Machine(), s.(threads := s.threads + [Returned(false)]));
    }

    method Reset(now: int)
      requires Valid()
      modifies `broken, `lastReset
      ensures Valid() && !broken && lastReset == now
      ensures Machine() == Exec(old(Machine()), [ResetTime(now), ResetLatch], min, max)
    {
      ghost var s := Machine();
      lastReset := now;
      broken := false;
      assert [ResetTime(now), ResetLatch] == [ResetTime(now)] + ([ResetLatch] + []);
      Comes(s, ResetTime(now), [ResetLatch] + [], min, max);
      Comes(s.(lastReset := now), ResetLatch, [], min, max);
    }

    /** The same as a call of the machine that runs through undisturbed; the windows answer long and short. */
    method OnCallEnd(code: int, long: bool, short: bool, now: int) returns (healthy: bool)
      requires Valid()
      modifies `broken, `times, `duration, `threads
      ensures Valid() && threads == old(threads) + [Returned(healthy)]
      ensures healthy <==> code == 2004 || (!old(broken) && long && short)
      ensures broken <==> old(broken) || !healthy
      ensures broken == old(broken) ==> times == old(times) && duration == old(duration)
      ensures broken != old(broken) ==>
                times == old(times) + 1 && duration == Isolation(old(duration), [now - lastReset], min, max)
      ensures Machine() ==
              Exec(old(Machine()), [Action.OnCallEnd(code)] + Turns(|old(threads)|, 8, long && short, now), min, max)
    {
      hide Exec, Turns, Inv, Quiet;
      ghost var s, t, v := Machine(), |threads|, long && short;
      assert min <= duration <= max by { InvBounds(s, min, max); }
      Comes(s, Action.OnCallEnd(code), Turns(t, 8, v, now), min, max);
      SoloKeepsValid(s, Action.OnCallEnd(code), 8, v, now, min, max);
      if code == ELIMIT {
        healthy := true;
        Rests(s.(threads := threads + [Returned(true)]), t, 8, v, now, min, max);
      } else {
        CallAlone(s.(threads := threads + [Checking]), t, v, now, min, max);
        NewcomerPut(s, Checking, Returned(!broken && v));
        if broken {
          healthy := false;
        } else if long && short {
          healthy := true;
        } else {
          Break(now);
          healthy := false;
        }
      }
      threads := threads + [Returned(healthy)];
      QuietMore(s, Returned(healthy));
      SameThreads(Machine(), s.(threads := s.threads + [Returned(healthy)]));
    }
  }

  lemma InvBounds(s: State, min: int, max: int)
    requires Inv(s, min, max)
    ensures min <= s.duration <= max
  {
  }

  lemma SoloKeepsValid(s: State, a: Action, n: nat, verdict: bool, now: int, min: int, max: int)
    requires 0 < min <= max && Inv(s, min, max)
    ensures Inv(Exec(s, [a] + Turns(|s.threads|, n, verdict, now), min, max), min, max)
  {
    hide Inv, Exec;
    ExecKeepsInv(s, [a] + Turns(|s.threads|, n, verdict, now), min, max);
  }

  lemma QuietMore(s: State, p: Thread)
    requires Quiet(s) && p.Returned?
    ensures Quiet(s.(threads := s.threads + [p]))
  {
  }

  lemma SameThreads(s: State, s': State)
    requires s.threads == s'.threads && Quiet(s')
    ensures Quiet(s)
  {
  }
}
