/** LifeGame and LifeGameRunner of ai/life_game/life_game.cc, with the workers run one by one. */
module LifeGame {
  import Basics
  import opened LifeRule

  /** Live cells in rows lo up to hi. */
  function Lives(b: Board, h: nat, w: nat, lo: nat, hi: nat): (n: nat)
    requires Shaped(b, h, w) && lo <= hi <= h
    decreases hi - lo
  {
    if lo == hi then 0 else Lives(b, h, w, lo, hi - 1) + RowLives(b[hi - 1], w)
  }

  function RowLives(row: seq<int>, k: nat): (n: nat)
    requires k <= |row|
  {
    if k == 0 then 0 else RowLives(row, k - 1) + if row[k - 1] != 0 then 1 else 0
  }

  lemma {:induction false} LivesSplit(b: Board, h: nat, w: nat, lo: nat, mid: nat, hi: nat)
    requires Shaped(b, h, w) && lo <= mid <= hi <= h
    ensures Lives(b, h, w, lo, hi) == Lives(b, h, w, lo, mid) + Lives(b, h, w, mid, hi)
    decreases hi - mid
  {
    if mid < hi {
      LivesSplit(b, h, w, lo, mid, hi - 1);
    }
  }

  function LiveCells(b: Board, h: nat, w: nat, lo: nat, hi: nat): (cells: set<(nat, nat)>)
    requires Shaped(b, h, w) && lo <= hi <= h
  {
    set j: nat, i: nat | lo <= j < hi && i < w && b[j][i] != 0 :: (j, i)
  }

  function RowCells(row: seq<int>, j: nat, k: nat): (cells: set<(nat, nat)>)
    requires k <= |row|
  {
    set i: nat | i < k && row[i] != 0 :: (j, i)
  }

  lemma {:induction false} RowLivesAreCells(row: seq<int>, j: nat, k: nat)
    requires k <= |row|
    ensures |RowCells(row, j, k)| == RowLives(row, k)
  {
    if k > 0 {
      RowLivesAreCells(row, j, k - 1);
      assert RowCells(row, j, k) == RowCells(row, j, k - 1) + if row[k - 1] != 0 then {(j, k - 1)} else {};
    }
  }

  lemma RowsJoin(b: Board, h: nat, w: nat, lo: nat, hi: nat)
    requires Shaped(b, h, w) && lo < hi <= h
    ensures LiveCells(b, h, w, lo, hi) == LiveCells(b, h, w, lo, hi - 1) + RowCells(b[hi - 1], hi - 1, w)
    ensures LiveCells(b, h, w, lo, hi - 1) !! RowCells(b[hi - 1], hi - 1, w)
  {
  }

  lemma SizesAdd<T>(a: set<T>, b: set<T>)
    requires a !! b
    ensures |a + b| == |a| + |b|
  {
  }

  /** The count of a range of rows is the number of live cells in them. */
  lemma {:induction false} LivesAreCells(b: Board, h: nat, w: nat, lo: nat, hi: nat)
    requires Shaped(b, h, w) && lo <= hi <= h
    ensures Lives(b, h, w, lo, hi) == |LiveCells(b, h, w, lo, hi)|
    decreases hi - lo
  {
    if lo < hi {
      LivesAreCells(b, h, w, lo, hi - 1);
      RowLivesAreCells(b[hi - 1], hi - 1, w);
      RowsJoin(b, h, w, lo, hi);
      hide LiveCells, RowCells;
      SizesAdd(LiveCells(b, h, w, lo, hi - 1), RowCells(b[hi - 1], hi - 1, w));
    }
  }

  class LifeGame {
    const h: nat
    const w: nat
    const matrix: array2<int>
    const workers: nat
    const threads: nat  // workers that sow
    const number: nat   // cells to sow
    var generation: nat
    var lived: nat
    var sameCount: nat

    predicate Valid() {
      h > 0 && w > 0 && workers > 0 && threads > 0 && matrix.Length0 == h && matrix.Length1 == w
    }

    ghost function Board(): (b: Board)
      reads matrix
      requires Valid()
      ensures Shaped(b, h, w)
      ensures forall j, i :: 0 <= j < h && 0 <= i < w ==> b[j][i] == matrix[j, i]
    {
      seq(h, j requires 0 <= j < h reads matrix =>
        seq(w, i requires 0 <= i < w reads matrix => matrix[j, i]))
    }

    constructor (h: nat, w: nat, workers: nat, threads: nat, number: nat)
      requires h > 0 && w > 0 && workers > 0 && threads > 0
      ensures Valid() && Torus(Board(), h, w) && fresh(matrix) && this.h == h && this.w == w
      ensures generation == 0 && lived == 0 && sameCount == 0
      ensures forall j, i :: 0 <= j < h && 0 <= i < w ==> matrix[j, i] == 0
    {
      this.h, this.w, this.workers, this.threads, this.number := h, w, workers, threads, number;
      matrix := new int[h, w]((j, i) => 0);
      generation, lived, sameCount := 0, 0, 0;
    }

    /** CheckLife: counts nine cells by their low bits and marks a cell that will live. */
    method CheckLife(x: nat, y: nat, ghost b: Board)
      requires Valid() && Torus(b, h, w) && y < h && x < w && matrix[y, x] == b[y][x] && OldBits(b)
      modifies matrix
      ensures matrix[y, x] == b[y][x] + 2 * Next(b, h, w, y, x)
      ensures forall j, i :: 0 <= j < h && 0 <= i < w && (j, i) != (y, x) ==> matrix[j, i] == old(matrix[j, i])
    {
      hide Next;
      var count := CountNine(x, y, b);
      CheckIsRule(b, h, w, y, x);
      if count == 3 || count - matrix[y, x] == 3 {
        matrix[y, x] := if matrix[y, x] / 2 % 2 == 0 then matrix[y, x] + 2 else matrix[y, x];
      }
    }

    ghost predicate OldBits(b: Board)
      requires Valid() && Shaped(b, h, w)
      reads matrix
    {
      forall j, i :: 0 <= j < h && 0 <= i < w ==> matrix[j, i] % 2 == b[j][i]
    }

    method CountNine(x: nat, y: nat, ghost b: Board) returns (count: int)
      requires Valid() && Shaped(b, h, w) && y < h && x < w && OldBits(b)
      ensures count == Sum(b, h, w, y, x, 9)
    {
      hide Wrap;
      count := 0;
      for i := x - 1 to x + 2
        invariant count == Sum(b, h, w, y, x, 3 * (i - (x - 1)))
      {
        for j := y - 1 to y + 2
          invariant count == Sum(b, h, w, y, x, 3 * (i - (x - 1)) + j - (y - 1))
        {
          var v := OldBit(j, i, b);
          assert v == Visit(b, h, w, y, x, 3 * (i - (x - 1)) + j - (y - 1));
          count := count + v;
        }
      }
    }

    method OldBit(j: int, i: int, ghost b: Board) returns (v: int)
      requires Valid() && Shaped(b, h, w) && -1 <= j <= h && -1 <= i <= w && OldBits(b)
      ensures v == Wrap(b, h, w, j, i)
    {
      v := matrix[(j + h) % h, (i + w) % w] % 2;
    }

    ghost predicate Holds(b: Board, lo: nat, hi: nat)
      requires Valid() && Shaped(b, h, w) && lo <= hi <= h
      reads matrix
    {
      forall j, i :: lo <= j < hi && 0 <= i < w ==> matrix[j, i] == b[j][i]
    }

    /** The board while it still carries the present generation in the low bit and the next above. */
    ghost function Both(b: Board): (m: Board)
      requires Torus(b, h, w)
      ensures Shaped(m, h, w)
      ensures forall j, i :: 0 <= j < h && 0 <= i < w ==> m[j][i] == b[j][i] + 2 * Next(b, h, w, j, i)
    {
      seq(h, j requires 0 <= j < h =>
        seq(w, i requires 0 <= i < w => b[j][i] + 2 * Next(b, h, w, j, i)))
    }

    method CheckLifesByIndex(start: nat, end: nat, ghost b: Board)
      requires Valid() && Torus(b, h, w) && start <= end <= h && OldBits(b) && Holds(b, start, end)
      modifies matrix
      ensures OldBits(b) && Holds(Both(b), start, end)
      ensures forall j, i :: 0 <= j < h && 0 <= i < w && !(start <= j < end) ==> matrix[j, i] == old(matrix[j, i])
    {
      hide Next, Both;
      for j := start to end
        invariant OldBits(b) && Holds(b, j, end) && Holds(Both(b), start, j)
        invariant forall r, i :: 0 <= r < h && 0 <= i < w && !(start <= r < end) ==> matrix[r, i] == old(matrix[r, i])
      {
        label Row:
        for i := 0 to w
          invariant OldBits(b)
          invariant forall c :: 0 <= c < i ==> matrix[j, c] == Both(b)[j][c]
          invariant forall c :: i <= c < w ==> matrix[j, c] == b[j][c]
          invariant forall r, c :: 0 <= r < h && 0 <= c < w && r != j ==> matrix[r, c] == old@Row(matrix[r, c])
        {
          CheckLife(i, j, b);
          Halves(b[j][i], Next(b, h, w, j, i));
        }
      }
    }

    method TransformLifes(start: nat, end: nat, ghost b: Board)
      requires Valid() && Torus(b, h, w) && start <= end <= h && Holds(Both(b), start, end)
      modifies matrix
      ensures Holds(NextGeneration(b, h, w), start, end)
      ensures forall j, i :: 0 <= j < h && 0 <= i < w && !(start <= j < end) ==> matrix[j, i] == old(matrix[j, i])
    {
      hide Next, Both, NextGeneration;
      ghost var b' := NextGeneration(b, h, w);
      for j := start to end
        invariant Holds(b', start, j) && Holds(Both(b), j, end)
        invariant forall r, i :: 0 <= r < h && 0 <= i < w && !(start <= r < end) ==> matrix[r, i] == old(matrix[r, i])
      {
        label Row:
        for i := 0 to w
          invariant forall c :: 0 <= c < i ==> matrix[j, c] == b'[j][c]
          invariant forall c :: i <= c < w ==> matrix[j, c] == Both(b)[j][c]
          invariant forall r, c :: 0 <= r < h && 0 <= c < w && r != j ==> matrix[r, c] == old@Row(matrix[r, c])
        {
          Halves(b[j][i], Next(b, h, w, j, i));
          matrix[j, i] := matrix[j, i] / 2;
        }
      }
    }

    method CountLifes(start: nat, end: nat) returns (lived: nat)
      requires Valid() && start <= end <= h
      ensures lived == Lives(Board(), h, w, start, end)
    {
      hide LifeGame.Board;
      ghost var b := Board();
      lived := 0;
      for j := start to end
        invariant lived == Lives(b, h, w, start, j)
      {
        for i := 0 to w
          invariant lived == Lives(b, h, w, start, j) + RowLives(b[j], i)
        {
          if matrix[j, i] != 0 {
            lived := lived + 1;
          }
        }
      }
    }

    /** The counters of the workers add up to the whole population, however rows are dealt out. */
    method CountAll() returns (total: nat)
      requires Valid()
      ensures total == Lives(Board(), h, w, 0, h)
    {
      hide Start, End, LifeGame.Board;
      var counter := [];
      for t := 0 to workers
        invariant |counter| == t && Basics.Sum(counter) == Lives(Board(), h, w, 0, Dealt(h, workers, t))
      {
        Consecutive(h, workers, t);
        var n := CountLifes(Start(h, workers, t), End(h, workers, t));
        LivesSplit(Board(), h, w, 0, Start(h, workers, t), End(h, workers, t));
        Basics.SumMore(counter, n);
        counter := counter + [n];
      }
      Consecutive(h, workers, 0);
      total := 0;
      for t := 0 to |counter|
        invariant total == Basics.Sum(counter[..t])
      {
        Basics.SumMore(counter[..t], counter[t]);
        assert counter[..t + 1] == counter[..t] + [counter[t]];
        total := total + counter[t];
      }
      assert counter[..|counter|] == counter;
    }

    /** True when the population has stood still ten checks in a row. */
    method CheckAllExpired() returns (expired: bool)
      requires Valid()
      modifies `lived, `sameCount
      ensures lived == Lives(Board(), h, w, 0, h)
      ensures sameCount == if lived == old(lived) then old(sameCount) + 1 else 0
      ensures expired <==> sameCount >= 10
    {
      var total := CountAll();
      if lived == total {
        sameCount := sameCount + 1;
      } else {
        lived := total;
        sameCount := 0;
      }
      expired := sameCount >= 10;
    }

    /** Sows as many cells in a range of rows as numbers were drawn; the cells alive before stay alive. */
    method InitRandom(draws: seq<(nat, nat)>, start: nat, end: nat)
      requires Valid() && Torus(Board(), h, w) && start <= end <= h && (draws != [] ==> start < end)
      modifies this, matrix
      ensures Board() == Sown(old(Board()), h, w, Hits(draws, start, end, w))
      ensures generation == 0 && lived == 0 && sameCount == 0
    {
      ghost var cells := Hits(draws, start, end, w);
      for k := 0 to |draws|
        invariant forall j, i :: 0 <= j < h && 0 <= i < w ==>
                    matrix[j, i] == if (j, i) in cells[..k] then 1 else old(matrix[j, i])
      {
        var x, y := draws[k].1 % w, start + draws[k].0 % (end - start);
        assert cells[..k + 1] == cells[..k] + [(y, x)] && y < end;
        matrix[y, x] := 1;
      }
      assert cells[..|cells|] == cells;
      SameCells(Board(), Sown(old(Board()), h, w, cells), h, w);
      generation, lived, sameCount := 0, 0, 0;
    }

    /** All sowing workers, each with its share of the numbers and its own rows. */
    method InitGame(draws: seq<seq<(nat, nat)>>)
      requires Valid() && Torus(Board(), h, w) && Sowable(h, number, threads) && Drawn(draws, number, threads)
      modifies this, matrix
      ensures Board() == Sown(old(Board()), h, w, Sowing(draws, h, w, number, threads, threads))
      ensures generation == 0 && lived == 0 && sameCount == 0
    {
      hide LifeGame.Board, Sown, Start, End, Hits, Portion;
      ghost var b := Board();
      SownNone(b, h, w);
      for t := 0 to threads
        invariant Torus(Board(), h, w) && Board() == Sown(b, h, w, Sowing(draws, h, w, number, threads, t))
        invariant t > 0 ==> generation == 0 && lived == 0 && sameCount == 0
      {
        RowsInside(h, threads, t);
        RoomToSow(h, number, threads, t);
        InitRandom(draws[t], Start(h, threads, t), End(h, threads, t));
        SownTwice(b, h, w, Sowing(draws, h, w, number, threads, t),
                  Hits(draws[t], Start(h, threads, t), End(h, threads, t), w));
      }
    }

    /** The next check will be the tenth to find the same population. */
    ghost predicate Expiring()
      requires Valid()
      reads this, matrix
    {
      Lives(Board(), h, w, 0, h) == lived && sameCount >= 9
    }

    /** One turn of the runner, its workers taken in order. */
    method Run(draws: seq<seq<(nat, nat)>>)
      requires Valid() && Torus(Board(), h, w)
      requires Expiring() ==> Sowable(h, number, threads) && Drawn(draws, number, threads)
      modifies this, matrix
      ensures Torus(Board(), h, w)
      ensures var n := Lives(old(Board()), h, w, 0, h);
              if old(Expiring())
              then
                && Board() == NextGeneration(
                                Sown(old(Board()), h, w, Sowing(draws, h, w, number, threads, threads)), h, w)
                && generation == 1 && lived == 0 && sameCount == 0
              else
                && Board() == NextGeneration(old(Board()), h, w)
                && generation == old(generation) + 1 && lived == n
                && sameCount == if n == old(lived) then old(sameCount) + 1 else 0
    {
      hide Lives, NextGeneration, Sown, Sowing, Drawn;
      var expired := CheckAllExpired();
      if expired {
        InitGame(draws);
      }
      ghost var b := Board();
      Generation(b);
      generation := generation + 1;
    }

    method CheckAll(ghost b: Board)
      requires Valid() && Torus(b, h, w) && OldBits(b) && Holds(b, 0, h)
      modifies matrix
      ensures Holds(Both(b), 0, h)
    {
      hide Start, End, Dealt, Both, Next;
      Consecutive(h, workers, 0);
      for t := 0 to workers
        invariant OldBits(b) && Holds(Both(b), 0, Dealt(h, workers, t)) && Holds(b, Dealt(h, workers, t), h)
      {
        Consecutive(h, workers, t);
        CheckLifesByIndex(Start(h, workers, t), End(h, workers, t), b);
      }
    }

    method TransformAll(ghost b: Board)
      requires Valid() && Torus(b, h, w) && Holds(Both(b), 0, h)
      modifies matrix
      ensures Holds(NextGeneration(b, h, w), 0, h)
    {
      hide Start, End, Dealt, Both, Next, NextGeneration;
      Consecutive(h, workers, 0);
      for t := 0 to workers
        invariant Holds(NextGeneration(b, h, w), 0, Dealt(h, workers, t)) && Holds(Both(b), Dealt(h, workers, t), h)
      {
        Consecutive(h, workers, t);
        TransformLifes(Start(h, workers, t), End(h, workers, t), b);
      }
    }

    method Generation(ghost b: Board)
      requires Valid() && Torus(b, h, w) && b == Board()
      modifies matrix
      ensures Board() == NextGeneration(b, h, w)
    {
      hide Both, Next, NextGeneration, LifeGame.Board;
      CheckAll(b);
      TransformAll(b);
      SameCells(Board(), NextGeneration(b, h, w), h, w);
    }
  }

  lemma SameCells(a: Board, b: Board, h: nat, w: nat)
    requires Shaped(a, h, w) && Shaped(b, h, w)
    requires forall j, i :: 0 <= j < h && 0 <= i < w ==> a[j][i] == b[j][i]
    ensures a == b
  {
    assert forall j :: 0 <= j < h ==> a[j] == b[j];
  }

  /** A board with some cells brought to life. */
  function Sown(b: Board, h: nat, w: nat, cells: seq<(nat, nat)>): (b': Board)
    requires Torus(b, h, w)
    ensures Torus(b', h, w)
    ensures forall j, i :: 0 <= j < h && 0 <= i < w ==> b'[j][i] == if (j, i) in cells then 1 else b[j][i]
  {
    seq(h, j requires 0 <= j < h => seq(w, i requires 0 <= i < w => if (j, i) in cells then 1 else b[j][i]))
  }

  /** Rows that the first t workers have between them. */
  function Dealt(h: nat, n: nat, t: nat): (r: nat)
    requires n > 0 && t <= n
    ensures r <= h
  {
    if t == 0 then 0 else RowsInside(h, n, t - 1); End(h, n, t - 1)
  }

  lemma Consecutive(h: nat, n: nat, t: nat)
    requires n > 0 && t < n
    ensures Dealt(h, n, t) == Start(h, n, t) <= End(h, n, t) == Dealt(h, n, t + 1) <= h
    ensures Dealt(h, n, 0) == 0 && Dealt(h, n, n) == h
  {
    RowsInside(h, n, t);
  }

  // ---- Sowing ----

  /** How many cells sowing worker t has to bring to life; the last one takes the remainder. */
  function Portion(number: nat, n: nat, t: nat): (k: nat)
    requires n > 0 && t < n
  {
    Shares(number, n);
    if t != n - 1 then number / n else number - number / n * (n - 1)
  }

  lemma Shares(number: nat, n: nat)
    requires n > 0
    ensures number / n * (n - 1) <= number
  {
    var q := number / n;
    assert q * n <= number by { Quotient(number, n); }
    AllButOne(q, n, number);
  }

  lemma AllButOne(q: nat, n: nat, number: nat)
    requires n > 0 && q * n <= number
    ensures q * (n - 1) <= number
  {
    Monotone(q, n - 1, n);
  }

  /** A worker with something to sow has a row to sow it in. */
  predicate Sowable(h: nat, number: nat, n: nat) {
    n > 0 && (number >= n ==> h >= n)
  }

  /**
    Drawing a row divides by the number of rows of the worker: that is never zero, for any worker
    with cells to sow, exactly when there are no more workers than rows or than cells need.
  */
  lemma SowableIff(h: nat, number: nat, n: nat)
    requires h > 0 && n > 0
    ensures Sowable(h, number, n) <==>
            forall t :: 0 <= t < n && Portion(number, n, t) > 0 ==> Start(h, n, t) < End(h, n, t)
  {
    if Sowable(h, number, n) {
      forall t | 0 <= t < n && Portion(number, n, t) > 0 ensures Start(h, n, t) < End(h, n, t) {
        RoomToSow(h, number, n, t);
      }
    } else {
      assert h / n == 0 && number / n > 0 by { SmallQuotient(h, number, n); }
      assert Portion(number, n, 0) > 0 && End(h, n, 0) == 0;
    }
  }

  lemma SmallQuotient(h: nat, number: nat, n: nat)
    requires h < n <= number
    ensures h / n == 0 && number / n > 0
  {
  }

  lemma RoomToSow(h: nat, number: nat, n: nat, t: nat)
    requires h > 0 && Sowable(h, number, n) && t < n
    ensures Portion(number, n, t) > 0 ==> Start(h, n, t) < End(h, n, t)
  {
    var q := h / n;
    if t == n - 1 {
      Quotient(h, n);
      if q > 0 {
        Monotone(q, t + 1, n);
        assert q * (t + 1) == q * t + q;
      } else {
        assert q * t == 0;
      }
    } else if number / n > 0 {
      Quotient(number, n);
      assert number >= n by { if number < n { SmallQuotient(number, n, n); } }
      assert q > 0 by { Quotient(h, n); }
      assert q * (t + 1) == q * t + q;
    }
  }

  /** The cells that drawn numbers stand for. */
  function Hits(draws: seq<(nat, nat)>, start: nat, end: nat, w: nat): (cells: seq<(nat, nat)>)
    requires w > 0 && (draws != [] ==> start < end)
    ensures |cells| == |draws| && forall k :: 0 <= k < |cells| ==> start <= cells[k].0 < end && cells[k].1 < w
  {
    seq(|draws|, k requires 0 <= k < |draws| => (start + draws[k].0 % (end - start), draws[k].1 % w))
  }

  predicate Drawn(draws: seq<seq<(nat, nat)>>, number: nat, n: nat) {
    |draws| == n && forall t :: 0 <= t < n ==> |draws[t]| == Portion(number, n, t)
  }

  /** What the first k sowing workers sow, each in its own rows. */
  function Sowing(draws: seq<seq<(nat, nat)>>, h: nat, w: nat, number: nat, n: nat, k: nat): (cells: seq<(nat, nat)>)
    requires h > 0 && w > 0 && Sowable(h, number, n) && Drawn(draws, number, n) && k <= n
  {
    if k == 0 then []
    else
      RoomToSow(h, number, n, k - 1);
      Sowing(draws, h, w, number, n, k - 1) + Hits(draws[k - 1], Start(h, n, k - 1), End(h, n, k - 1), w)
  }

  /** The shares add up: as many cells are sown as the game was set up with. */
  lemma SowsAll(draws: seq<seq<(nat, nat)>>, h: nat, w: nat, number: nat, n: nat)
    requires h > 0 && w > 0 && Sowable(h, number, n) && Drawn(draws, number, n)
    ensures |Sowing(draws, h, w, number, n, n)| == number
  {
    SowsPart(draws, h, w, number, n, n - 1);
  }

  lemma {:induction false} SowsPart(draws: seq<seq<(nat, nat)>>, h: nat, w: nat, number: nat, n: nat, k: nat)
    requires h > 0 && w > 0 && Sowable(h, number, n) && Drawn(draws, number, n) && k < n
    ensures |Sowing(draws, h, w, number, n, k)| == number / n * k
  {
    if k > 0 {
      SowsPart(draws, h, w, number, n, k - 1);
      assert number / n * k == number / n * (k - 1) + number / n;
    }
  }

  lemma SownNone(b: Board, h: nat, w: nat)
    requires Torus(b, h, w)
    ensures Sown(b, h, w, []) == b
  {
    SameCells(Sown(b, h, w, []), b, h, w);
  }

  lemma SownTwice(b: Board, h: nat, w: nat, a: seq<(nat, nat)>, c: seq<(nat, nat)>)
    requires Torus(b, h, w)
    ensures Sown(Sown(b, h, w, a), h, w, c) == Sown(b, h, w, a + c)
  {
    SameCells(Sown(Sown(b, h, w, a), h, w, c), Sown(b, h, w, a + c), h, w);
  }
}
