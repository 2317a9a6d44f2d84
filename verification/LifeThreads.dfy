/**
  The two parallel phases of LifeGameRunner::Run as interleaved memory accesses: every read of a
  neighbour and every write of a cell is a step of its own, and workers take steps in any order.
*/
module LifeThreads {
  import Basics
  import opened LifeRule

  /** A worker is at cell (j, i), has read k of the nine cells around it and counted `count`. */
  datatype Worker = Worker(j: nat, i: nat, k: nat, count: int)

  datatype State = State(mem: Board, ws: seq<Worker>)

  function Ready(b: Board, h: nat, n: nat): (s: State)
    requires n > 0
  {
    State(b, seq(n, t requires 0 <= t < n => Worker(Start(h, n, t), 0, 0, 0)))
  }

  ghost predicate Placed(s: State, h: nat, w: nat, n: nat) {
    && n > 0 && h > 0 && w > 0 && Shaped(s.mem, h, w) && |s.ws| == n
    && forall t :: 0 <= t < n ==> InPlace(s.ws[t], h, w, n, t)
  }

  ghost predicate InPlace(p: Worker, h: nat, w: nat, n: nat, t: nat)
    requires n > 0 && t < n
  {
    Start(h, n, t) <= p.j <= End(h, n, t) && p.i < w && (p.j == End(h, n, t) ==> p.i == 0) && p.k <= 9
  }

  function Advance(p: Worker, w: nat): (q: Worker) {
    if p.i + 1 < w then Worker(p.j, p.i + 1, 0, 0) else Worker(p.j + 1, 0, 0, 0)
  }

  function Store(b: Board, j: nat, i: nat, v: int): (b': Board)
    requires j < |b| && i < |b[j]|
  {
    b[j := b[j][i := v]]
  }

  /** `|= 2` */
  function Mark(v: int): (r: int) { if v / 2 % 2 == 0 then v + 2 else v }

  predicate Finished(s: State, h: nat, n: nat) {
    n > 0 && |s.ws| == n && forall t :: 0 <= t < n ==> s.ws[t].j >= End(h, n, t)
  }

  /** One memory access of worker t inside CheckLifesByIndex; a finished worker stays put. */
  function CheckStep(s: State, h: nat, w: nat, n: nat, t: nat): (s': State)
    requires Placed(s, h, w, n)
  {
    if t >= n || s.ws[t].j >= End(h, n, t) then s
    else
      var p := s.ws[t];
      RowsInside(h, n, t);
      if p.k < 9 then
        s.(ws := s.ws[t := p.(k := p.k + 1, count := p.count + Visit(s.mem, h, w, p.j, p.i, p.k) % 2)])
      else
        var v := s.mem[p.j][p.i];
        State(Store(s.mem, p.j, p.i, if p.count == 3 || p.count - v == 3 then Mark(v) else v),
              s.ws[t := Advance(p, w)])
  }

  /** One cell of TransformLifes. */
  function ShiftStep(s: State, h: nat, w: nat, n: nat, t: nat): (s': State)
    requires Placed(s, h, w, n)
  {
    if t >= n || s.ws[t].j >= End(h, n, t) then s
    else
      var p := s.ws[t];
      RowsInside(h, n, t);
      State(Store(s.mem, p.j, p.i, s.mem[p.j][p.i] / 2), s.ws[t := Advance(p, w)])
  }

  /** The worker that owns the row has dealt with the cell. */
  predicate Passed(ws: seq<Worker>, h: nat, n: nat, r: nat, c: nat)
    requires |ws| == n > 0 && r < h
  {
    var o := ws[Owner(h, n, r)];
    r < o.j || (r == o.j && c < o.i)
  }

  lemma AdvanceInPlace(p: Worker, h: nat, w: nat, n: nat, t: nat)
    requires n > 0 && t < n && InPlace(p, h, w, n, t) && p.j < End(h, n, t)
    ensures InPlace(Advance(p, w), h, w, n, t)
  {
  }

  /** Moving on from its cell, a worker passes just that cell. */
  lemma AdvancePasses(ws: seq<Worker>, h: nat, w: nat, n: nat, t: nat, r: nat, c: nat)
    requires |ws| == n > 0 && t < n && InPlace(ws[t], h, w, n, t) && ws[t].j < End(h, n, t) && r < h && c < w
    requires ws[t].j < h
    ensures Passed(ws[t := Advance(ws[t], w)], h, n, r, c) <==>
            Passed(ws, h, n, r, c) || (r == ws[t].j && c == ws[t].i)
    ensures !Passed(ws, h, n, ws[t].j, ws[t].i)
  {
    hide Start, End, Owner;
    RowsPartitioned(h, n, ws[t].j, t);
    RowsPartitioned(h, n, r, t);
  }

  // ---- Checking ----

  ghost predicate Checking(s: State, b: Board, h: nat, w: nat, n: nat)
    requires Torus(b, h, w)
  {
    && Placed(s, h, w, n)
    && (forall t :: 0 <= t < n ==> Counting(s.ws[t], b, h, w, n, t))
    && (forall r, c :: 0 <= r < h && 0 <= c < w ==>
          s.mem[r][c] == b[r][c] + if Passed(s.ws, h, n, r, c) then 2 * Next(b, h, w, r, c) else 0)
  }

  /** The count so far is that of the untouched board. */
  ghost predicate Counting(p: Worker, b: Board, h: nat, w: nat, n: nat, t: nat)
    requires Torus(b, h, w) && n > 0 && t < n
  {
    p.j < h && p.i < w && p.k <= 9 ==> p.count == Sum(b, h, w, p.j, p.i, p.k)
  }

  /** A bit read during the checks is that of the old generation, marked or not. */
  lemma ReadsOldBit(s: State, b: Board, h: nat, w: nat, n: nat, j: nat, i: nat, k: nat)
    requires Torus(b, h, w) && Checking(s, b, h, w, n) && j < h && i < w && k < 9
    ensures Visit(s.mem, h, w, j, i, k) % 2 == Visit(b, h, w, j, i, k)
  {
    hide Next, Passed;
    forall r, c | 0 <= r < h && 0 <= c < w ensures s.mem[r][c] % 2 == b[r][c] {
      OldBit(b[r][c], Next(b, h, w, r, c));
    }
    SameBits(s.mem, b, h, w, j + k % 3 - 1, i + k / 3 - 1);
  }

  lemma OldBit(v: int, next: int)
    requires v == 0 || v == 1
    ensures v % 2 == v && (v + 2 * next) % 2 == v
  {
  }

  lemma SameBits(m: Board, b: Board, h: nat, w: nat, j: int, i: int)
    requires Shaped(m, h, w) && Shaped(b, h, w) && -1 <= j <= h && -1 <= i <= w && h > 0 && w > 0
    requires forall r, c :: 0 <= r < h && 0 <= c < w ==> m[r][c] % 2 == b[r][c]
    ensures Wrap(m, h, w, j, i) % 2 == Wrap(b, h, w, j, i)
  {
  }

  lemma CheckStepKeeps(s: State, b: Board, h: nat, w: nat, n: nat, t: nat)
    requires Torus(b, h, w) && Checking(s, b, h, w, n)
    ensures Checking(CheckStep(s, h, w, n, t), b, h, w, n)
  {
    if t < n && s.ws[t].j < End(h, n, t) {
      var p, s' := s.ws[t], CheckStep(s, h, w, n, t);
      RowsInside(h, n, t);
      assert Counting(p, b, h, w, n, t);
      if p.k < 9 {
        ReadsOldBit(s, b, h, w, n, p.j, p.i, p.k);
        CountKeeps(s, b, h, w, n, t);
      } else {
        CheckIsRule(b, h, w, p.j, p.i);
        WriteKeeps(s, b, h, w, n, t);
      }
    }
  }

  lemma CountKeeps(s: State, b: Board, h: nat, w: nat, n: nat, t: nat)
    requires Torus(b, h, w) && Checking(s, b, h, w, n) && t < n && s.ws[t].j < End(h, n, t) && s.ws[t].k < 9
    requires s.ws[t].j < h
    requires Visit(s.mem, h, w, s.ws[t].j, s.ws[t].i, s.ws[t].k) % 2 == Visit(b, h, w, s.ws[t].j, s.ws[t].i, s.ws[t].k)
    ensures Checking(CheckStep(s, h, w, n, t), b, h, w, n)
  {
    hide Visit, Next;
    var p, s' := s.ws[t], CheckStep(s, h, w, n, t);
    assert Counting(p, b, h, w, n, t);
    assert Counting(s'.ws[t], b, h, w, n, t);
  }

  lemma WriteKeeps(s: State, b: Board, h: nat, w: nat, n: nat, t: nat)
    requires Torus(b, h, w) && Checking(s, b, h, w, n) && t < n && s.ws[t].j < End(h, n, t) && s.ws[t].k == 9
    requires s.ws[t].j < h
    requires var count := Sum(b, h, w, s.ws[t].j, s.ws[t].i, 9); var v := b[s.ws[t].j][s.ws[t].i];
             (count == 3 || count - v == 3) <==> Next(b, h, w, s.ws[t].j, s.ws[t].i) == 1
    ensures Checking(CheckStep(s, h, w, n, t), b, h, w, n)
  {
    hide Next, Sum, Passed;
    var p, s' := s.ws[t], CheckStep(s, h, w, n, t);
    assert Counting(p, b, h, w, n, t);
    AdvanceInPlace(p, h, w, n, t);
    assert Counting(s'.ws[t], b, h, w, n, t) by { NothingCounted(b, h, w, s'.ws[t].j, s'.ws[t].i); }
    forall r, c | 0 <= r < h && 0 <= c < w
      ensures s'.mem[r][c] == b[r][c] + if Passed(s'.ws, h, n, r, c) then 2 * Next(b, h, w, r, c) else 0
    {
      AdvancePasses(s.ws, h, w, n, t, r, c);
    }
  }

  lemma NothingCounted(b: Board, h: nat, w: nat, j: nat, i: nat)
    requires Torus(b, h, w)
    ensures j < h && i < w ==> Sum(b, h, w, j, i, 0) == 0
  {
  }

  function Checks(s: State, h: nat, w: nat, n: nat, schedule: seq<nat>, ghost b: Board): (s': State)
    requires Torus(b, h, w) && Checking(s, b, h, w, n)
    ensures Checking(s', b, h, w, n)
    decreases |schedule|
  {
    if schedule == [] then s
    else
      CheckStepKeeps(s, b, h, w, n, schedule[0]);
      Checks(CheckStep(s, h, w, n, schedule[0]), h, w, n, schedule[1..], b)
  }

  // ---- Shifting ----

  ghost predicate Shifting(s: State, m: Board, h: nat, w: nat, n: nat) {
    && Placed(s, h, w, n) && Shaped(m, h, w)
    && (forall r, c :: 0 <= r < h && 0 <= c < w ==>
          s.mem[r][c] == if Passed(s.ws, h, n, r, c) then m[r][c] / 2 else m[r][c])
  }

  lemma ShiftStepKeeps(s: State, m: Board, h: nat, w: nat, n: nat, t: nat)
    requires Shifting(s, m, h, w, n)
    ensures Shifting(ShiftStep(s, h, w, n, t), m, h, w, n)
  {
    hide Passed;
    if t < n && s.ws[t].j < End(h, n, t) {
      var p, s' := s.ws[t], ShiftStep(s, h, w, n, t);
      RowsInside(h, n, t);
      AdvanceInPlace(p, h, w, n, t);
      forall r, c | 0 <= r < h && 0 <= c < w
        ensures s'.mem[r][c] == if Passed(s'.ws, h, n, r, c) then m[r][c] / 2 else m[r][c]
      {
        AdvancePasses(s.ws, h, w, n, t, r, c);
      }
    }
  }

  function Shifts(s: State, h: nat, w: nat, n: nat, schedule: seq<nat>, ghost m: Board): (s': State)
    requires Shifting(s, m, h, w, n)
    ensures Shifting(s', m, h, w, n)
    decreases |schedule|
  {
    if schedule == [] then s
    else
      ShiftStepKeeps(s, m, h, w, n, schedule[0]);
      Shifts(ShiftStep(s, h, w, n, schedule[0]), h, w, n, schedule[1..], m)
  }

  // ---- One generation ----

  lemma ReadyPlaced(b: Board, h: nat, w: nat, n: nat)
    requires Shaped(b, h, w) && h > 0 && w > 0 && n > 0
    ensures var s := Ready(b, h, n);
            Placed(s, h, w, n) && forall r, c :: 0 <= r < h && 0 <= c < w ==> !Passed(s.ws, h, n, r, c)
  {
    hide Start, End, Owner;
    var s := Ready(b, h, n);
    forall t | 0 <= t < n ensures InPlace(s.ws[t], h, w, n, t) {
      RowsInside(h, n, t);
    }
    forall r, c | 0 <= r < h && 0 <= c < w ensures !Passed(s.ws, h, n, r, c) {
      RowsPartitioned(h, n, r, Owner(h, n, r));
    }
  }

  /** A finished phase has passed every cell. */
  lemma FinishedPassed(s: State, h: nat, w: nat, n: nat, r: nat, c: nat)
    requires Placed(s, h, w, n) && Finished(s, h, n) && r < h && c < w
    ensures Passed(s.ws, h, n, r, c)
  {
    RowsPartitioned(h, n, r, Owner(h, n, r));
  }

  lemma ReadyToCheck(b: Board, h: nat, w: nat, n: nat)
    requires Torus(b, h, w) && n > 0
    ensures Checking(Ready(b, h, n), b, h, w, n)
  {
    hide Start, End, Owner, Passed, Next;
    ReadyPlaced(b, h, w, n);
    var s := Ready(b, h, n);
    forall t | 0 <= t < n ensures Counting(s.ws[t], b, h, w, n, t) {
      NothingCounted(b, h, w, s.ws[t].j, s.ws[t].i);
    }
  }

  lemma ReadyToShift(m: Board, h: nat, w: nat, n: nat)
    requires Shaped(m, h, w) && h > 0 && w > 0 && n > 0
    ensures Shifting(Ready(m, h, n), m, h, w, n)
  {
    hide Start, End, Owner, Passed;
    ReadyPlaced(m, h, w, n);
  }

  /** All checking tasks run to some point of a schedule of worker numbers. */
  function CheckPhase(b: Board, h: nat, w: nat, n: nat, schedule: seq<nat>): (s: State)
    requires Torus(b, h, w) && n > 0
    ensures Checking(s, b, h, w, n)
  {
    ReadyToCheck(b, h, w, n);
    Checks(Ready(b, h, n), h, w, n, schedule, b)
  }

  function ShiftPhase(m: Board, h: nat, w: nat, n: nat, schedule: seq<nat>): (s: State)
    requires Shaped(m, h, w) && h > 0 && w > 0 && n > 0
    ensures Shifting(s, m, h, w, n)
  {
    ReadyToShift(m, h, w, n);
    Shifts(Ready(m, h, n), h, w, n, schedule, m)
  }

  // ---- Which schedules finish ----

  /** Cells a worker still has to deal with. */
  function Cells(p: Worker, w: nat, end: nat): (n: int) {
    if p.j >= end then 0 else w * (end - p.j) - p.i
  }

  lemma CellsAdvance(p: Worker, w: nat, end: nat)
    requires p.j < end && p.i < w
    ensures Cells(Advance(p, w), w, end) == Cells(p, w, end) - 1 >= 0
  {
    assert w * (end - p.j) == w * (end - p.j - 1) + w;
    assert w * (end - p.j - 1) >= 0;
  }

  /** Accesses a checking worker still has to make: nine reads and a write for every cell. */
  function CheckLeft(p: Worker, w: nat, end: nat): (n: int) {
    if p.j >= end then 0 else 10 * Cells(p, w, end) - p.k
  }

  function Less(a: int, b: nat): (c: int) { if a > b then a - b else 0 }

  function Is(t: nat): (p: nat -> bool) { (x: nat) => x == t }

  /** How often a worker gets its turn. */
  function Turns(schedule: seq<nat>, t: nat): (k: nat) { Basics.Number(schedule, Is(t)) }

  lemma CheckStepLeft(s: State, h: nat, w: nat, n: nat, u: nat, t: nat)
    requires Placed(s, h, w, n) && t < n
    ensures var s' := CheckStep(s, h, w, n, u);
            && |s'.ws| == n
            && CheckLeft(s'.ws[t], w, End(h, n, t)) ==
               Less(CheckLeft(s.ws[t], w, End(h, n, t)), if u == t then 1 else 0)
    ensures var left := CheckLeft(s.ws[t], w, End(h, n, t)); left >= 0 && (left > 0 <==> s.ws[t].j < End(h, n, t))
  {
    hide Visit, End, Cells, Advance;
    assert InPlace(s.ws[t], h, w, n, t);
    if s.ws[t].j < End(h, n, t) {
      CellsAdvance(s.ws[t], w, End(h, n, t));
      AdvancedCells(s.ws[t], w, End(h, n, t));
    }
  }

  lemma AdvancedCells(p: Worker, w: nat, end: nat)
    ensures CheckLeft(Advance(p, w), w, end) == 10 * Cells(Advance(p, w), w, end)
    ensures forall k, c :: Cells(p.(k := k, count := c), w, end) == Cells(p, w, end)
  {
  }

  lemma {:induction false} ChecksLeft(s: State, h: nat, w: nat, n: nat, schedule: seq<nat>, b: Board, t: nat)
    requires Torus(b, h, w) && Checking(s, b, h, w, n) && t < n
    ensures CheckLeft(Checks(s, h, w, n, schedule, b).ws[t], w, End(h, n, t)) ==
            Less(CheckLeft(s.ws[t], w, End(h, n, t)), Turns(schedule, t))
    decreases |schedule|
  {
    hide CheckStep, CheckLeft, Checking;
    assert Placed(s, h, w, n) && |s.ws| == n by { IsPlaced(s, b, h, w, n); }
    CheckStepLeft(s, h, w, n, t, t);
    if schedule != [] {
      CheckStepKeeps(s, b, h, w, n, schedule[0]);
      var s' := CheckStep(s, h, w, n, schedule[0]);
      IsPlaced(s', b, h, w, n);
      CheckStepLeft(s, h, w, n, schedule[0], t);
      ChecksLeft(s', h, w, n, schedule[1..], b, t);
    }
  }

  lemma IsPlaced(s: State, b: Board, h: nat, w: nat, n: nat)
    requires Torus(b, h, w) && Checking(s, b, h, w, n)
    ensures Placed(s, h, w, n) && |s.ws| == n
  {
  }

  lemma ShiftStepLeft(s: State, h: nat, w: nat, n: nat, u: nat, t: nat)
    requires Placed(s, h, w, n) && t < n
    ensures var s' := ShiftStep(s, h, w, n, u);
            && |s'.ws| == n
            && Cells(s'.ws[t], w, End(h, n, t)) ==
               Less(Cells(s.ws[t], w, End(h, n, t)), if u == t then 1 else 0)
    ensures var left := Cells(s.ws[t], w, End(h, n, t)); left >= 0 && (left > 0 <==> s.ws[t].j < End(h, n, t))
  {
    assert InPlace(s.ws[t], h, w, n, t);
    if s.ws[t].j < End(h, n, t) {
      CellsAdvance(s.ws[t], w, End(h, n, t));
    }
    hide End, Advance;
  }

  lemma {:induction false} ShiftsLeft(s: State, h: nat, w: nat, n: nat, schedule: seq<nat>, m: Board, t: nat)
    requires Shifting(s, m, h, w, n) && t < n
    ensures Cells(Shifts(s, h, w, n, schedule, m).ws[t], w, End(h, n, t)) ==
            Less(Cells(s.ws[t], w, End(h, n, t)), Turns(schedule, t))
    decreases |schedule|
  {
    hide ShiftStep, Cells, End;
    ShiftStepLeft(s, h, w, n, t, t);
    if schedule != [] {
      ShiftStepKeeps(s, m, h, w, n, schedule[0]);
      ShiftStepLeft(s, h, w, n, schedule[0], t);
      ShiftsLeft(ShiftStep(s, h, w, n, schedule[0]), h, w, n, schedule[1..], m, t);
    }
  }

  /** Every worker has as many turns as its rows call for. */
  ghost predicate Enough(schedule: seq<nat>, h: nat, w: nat, n: nat, each: nat)
    requires n > 0
  {
    forall t :: 0 <= t < n ==> Turns(schedule, t) >= each * (w * (End(h, n, t) - Start(h, n, t)))
  }

  /** A checking schedule finishes exactly when it gives every worker ten turns for every cell of its rows. */
  lemma ChecksFinishIff(b: Board, h: nat, w: nat, n: nat, schedule: seq<nat>)
    requires Torus(b, h, w) && n > 0
    ensures Finished(CheckPhase(b, h, w, n, schedule), h, n) <==> Enough(schedule, h, w, n, 10)
  {
    var s, s0 := CheckPhase(b, h, w, n, schedule), Ready(b, h, n);
    ReadyToCheck(b, h, w, n);
    IsPlaced(s, b, h, w, n);
    forall t | 0 <= t < n
      ensures s.ws[t].j >= End(h, n, t) <==> Turns(schedule, t) >= 10 * (w * (End(h, n, t) - Start(h, n, t)))
    {
      hide Checking, End, Start, Turns;
      RowsInside(h, n, t);
      ChecksLeft(s0, h, w, n, schedule, b, t);
      CheckStepLeft(s, h, w, n, t, t);
      AtStart(w, Start(h, n, t), End(h, n, t));
    }
  }

  lemma AtStart(w: nat, start: nat, end: nat)
    requires start <= end
    ensures Cells(Worker(start, 0, 0, 0), w, end) == w * (end - start)
    ensures CheckLeft(Worker(start, 0, 0, 0), w, end) == 10 * (w * (end - start))
  {
    assert start == end ==> w * (end - start) == 0;
  }

  lemma ShiftsFinishIff(m: Board, h: nat, w: nat, n: nat, schedule: seq<nat>)
    requires Shaped(m, h, w) && h > 0 && w > 0 && n > 0
    ensures Finished(ShiftPhase(m, h, w, n, schedule), h, n) <==> Enough(schedule, h, w, n, 1)
  {
    var s, s0 := ShiftPhase(m, h, w, n, schedule), Ready(m, h, n);
    ReadyToShift(m, h, w, n);
    forall t | 0 <= t < n
      ensures s.ws[t].j >= End(h, n, t) <==> Turns(schedule, t) >= 1 * (w * (End(h, n, t) - Start(h, n, t)))
    {
      hide End, Start, Turns, Cells;
      RowsInside(h, n, t);
      ShiftsLeft(s0, h, w, n, schedule, m, t);
      ShiftStepLeft(s, h, w, n, t, t);
      AtStart(w, Start(h, n, t), End(h, n, t));
    }
  }

  /**
    One generation in parallel: for every torus and every number of workers, whatever the
    interleaving of the memory accesses in each phase, as soon as every worker has had its turns
    the board is the synchronous next generation, of zeros and ones again.
  */
  lemma ParallelGeneration(b: Board, h: nat, w: nat, n: nat, checks: seq<nat>, shifts: seq<nat>)
    requires Torus(b, h, w) && n > 0
    ensures var s1 := CheckPhase(b, h, w, n, checks);
            var s2 := ShiftPhase(s1.mem, h, w, n, shifts);
            Enough(checks, h, w, n, 10) && Enough(shifts, h, w, n, 1) ==> s2.mem == NextGeneration(b, h, w)
  {
    hide Next, Passed, CheckPhase, ShiftPhase, Finished, Enough;
    var s1 := CheckPhase(b, h, w, n, checks);
    var s2 := ShiftPhase(s1.mem, h, w, n, shifts);
    ChecksFinishIff(b, h, w, n, checks);
    ShiftsFinishIff(s1.mem, h, w, n, shifts);
    if Enough(checks, h, w, n, 10) && Enough(shifts, h, w, n, 1) {
      var b' := NextGeneration(b, h, w);
      forall r, c | 0 <= r < h && 0 <= c < w ensures s2.mem[r][c] == b'[r][c] {
        FinishedPassed(s1, h, w, n, r, c);
        FinishedPassed(s2, h, w, n, r, c);
        Halves(b[r][c], Next(b, h, w, r, c));
      }
      assert forall r :: 0 <= r < h ==> s2.mem[r] == b'[r];
    }
  }

  function Round(n: nat): (schedule: seq<nat>) {
    if n == 0 then [] else Round(n - 1) + [n - 1]
  }

  /** Workers taking turns one after another, m rounds of it. */
  function RoundRobin(n: nat, m: nat): (schedule: seq<nat>) {
    if m == 0 then [] else Round(n) + RoundRobin(n, m - 1)
  }

  /** Such a schedule is long enough with ten rounds per cell of the board. */
  lemma RoundRobinIsEnough(h: nat, w: nat, n: nat, each: nat)
    requires n > 0
    ensures Enough(RoundRobin(n, each * (w * h)), h, w, n, each)
  {
    forall t | 0 <= t < n
      ensures Turns(RoundRobin(n, each * (w * h)), t) >= each * (w * (End(h, n, t) - Start(h, n, t)))
    {
      hide End, Start, Turns;
      RowsInside(h, n, t);
      RoundRobinTurns(n, each * (w * h), t);
      Monotone(w, End(h, n, t) - Start(h, n, t), h);
      Monotone(each, w * (End(h, n, t) - Start(h, n, t)), w * h);
    }
  }

  lemma {:induction false} RoundRobinTurns(n: nat, m: nat, t: nat)
    requires t < n
    ensures Turns(RoundRobin(n, m), t) == m
    decreases m
  {
    if m > 0 {
      RoundRobinTurns(n, m - 1, t);
      OneRound(n, t);
      Basics.NumberConcat(Round(n), RoundRobin(n, m - 1), Is(t));
    }
  }

  lemma {:induction false} OneRound(n: nat, t: nat)
    ensures Turns(Round(n), t) == if t < n then 1 else 0
  {
    if n > 0 {
      OneRound(n - 1, t);
      Basics.NumberMore<nat>(Round(n - 1), Is(t), n - 1);
    }
  }
}
