/** Conway's rule on a torus, and how ai/life_game/life_game.cc deals its rows out to workers. */
module LifeRule {

  /** Rows of cells; a live cell is 1, a dead one 0. */
  type Board = seq<seq<int>>

  predicate Shaped(b: Board, h: nat, w: nat) {
    |b| == h && forall j :: 0 <= j < h ==> |b[j]| == w
  }

  predicate Torus(b: Board, h: nat, w: nat) {
    && h > 0 && w > 0 && Shaped(b, h, w)
    && forall j, i :: 0 <= j < h && 0 <= i < w ==> b[j][i] == 0 || b[j][i] == 1
  }

  /** The cell at any coordinates within one step of the board, wrapped around. */
  function Wrap(b: Board, h: nat, w: nat, j: int, i: int): (v: int)
    requires Shaped(b, h, w) && -1 <= j <= h && -1 <= i <= w && h > 0 && w > 0
  {
    b[(j + h) % h][(i + w) % w]
  }

  /** The eight neighbours; on a tiny torus a cell may be its own neighbour, several times. */
  function Neighbours(b: Board, h: nat, w: nat, j: int, i: int): (n: int)
    requires Shaped(b, h, w) && 0 <= j < h && 0 <= i < w
  {
    Wrap(b, h, w, j - 1, i - 1) + Wrap(b, h, w, j - 1, i) + Wrap(b, h, w, j - 1, i + 1)
    + Wrap(b, h, w, j, i - 1) + Wrap(b, h, w, j, i + 1)
    + Wrap(b, h, w, j + 1, i - 1) + Wrap(b, h, w, j + 1, i) + Wrap(b, h, w, j + 1, i + 1)
  }

  /** B3/S23: born with three live neighbours, surviving with two or three. */
  function Next(b: Board, h: nat, w: nat, j: int, i: int): (v: int)
    requires Shaped(b, h, w) && 0 <= j < h && 0 <= i < w
    ensures v == 0 || v == 1
  {
    var n := Neighbours(b, h, w, j, i);
    if n == 3 || (b[j][i] == 1 && n == 2) then 1 else 0
  }

  function NextGeneration(b: Board, h: nat, w: nat): (b': Board)
    requires Torus(b, h, w)
    ensures Torus(b', h, w)
    ensures forall j, i :: 0 <= j < h && 0 <= i < w ==> b'[j][i] == Next(b, h, w, j, i)
  {
    seq(h, j requires 0 <= j < h => seq(w, i requires 0 <= i < w => Next(b, h, w, j, i)))
  }

  // ---- The counting loop of CheckLife ----

  /** The t-th cell its two loops visit: columns outside, rows inside. */
  function Visit(b: Board, h: nat, w: nat, j: int, i: int, t: int): (v: int)
    requires Shaped(b, h, w) && 0 <= j < h && 0 <= i < w && 0 <= t < 9
  {
    Wrap(b, h, w, j + t % 3 - 1, i + t / 3 - 1)
  }

  function Sum(b: Board, h: nat, w: nat, j: int, i: int, k: nat): (n: int)
    requires Shaped(b, h, w) && 0 <= j < h && 0 <= i < w && k <= 9
  {
    if k == 0 then 0 else Sum(b, h, w, j, i, k - 1) + Visit(b, h, w, j, i, k - 1)
  }

  /** One run of the inner loop. */
  lemma Column(b: Board, h: nat, w: nat, j: int, i: int, c: nat)
    requires Shaped(b, h, w) && 0 <= j < h && 0 <= i < w && c < 3
    ensures Sum(b, h, w, j, i, 3 * c + 3) ==
            Sum(b, h, w, j, i, 3 * c)
            + Wrap(b, h, w, j - 1, i + c - 1) + Wrap(b, h, w, j, i + c - 1) + Wrap(b, h, w, j + 1, i + c - 1)
  {
    hide Wrap;
    var k := 3 * c;
    assert Sum(b, h, w, j, i, k + 1) == Sum(b, h, w, j, i, k) + Visit(b, h, w, j, i, k);
    assert Sum(b, h, w, j, i, k + 2) == Sum(b, h, w, j, i, k + 1) + Visit(b, h, w, j, i, k + 1);
    assert Sum(b, h, w, j, i, k + 3) == Sum(b, h, w, j, i, k + 2) + Visit(b, h, w, j, i, k + 2);
  }

  lemma SumOfNine(b: Board, h: nat, w: nat, j: int, i: int)
    requires Shaped(b, h, w) && 0 <= j < h && 0 <= i < w
    ensures Sum(b, h, w, j, i, 9) == Neighbours(b, h, w, j, i) + b[j][i]
  {
    hide Wrap;
    Column(b, h, w, j, i, 0);
    Column(b, h, w, j, i, 1);
    Column(b, h, w, j, i, 2);
    Centre(b, h, w, j, i);
  }

  lemma Centre(b: Board, h: nat, w: nat, j: int, i: int)
    requires Shaped(b, h, w) && 0 <= j < h && 0 <= i < w
    ensures Wrap(b, h, w, j, i) == b[j][i]
  {
    assert (j + h) % h == j && (i + w) % w == i;
  }

  /** The test CheckLife makes on the nine-cell count is Conway's rule. */
  lemma CheckIsRule(b: Board, h: nat, w: nat, j: int, i: int)
    requires Torus(b, h, w) && 0 <= j < h && 0 <= i < w
    ensures var count := Sum(b, h, w, j, i, 9);
            (count == 3 || count - b[j][i] == 3) <==> Next(b, h, w, j, i) == 1
  {
    hide Sum, Neighbours;
    SumOfNine(b, h, w, j, i);
  }

  /** The two bits of a cell between the phases: its state in the low one, the next above. */
  lemma Halves(bit: int, next: int)
    requires 0 <= bit <= 1
    ensures (bit + 2 * next) % 2 == bit && (bit + 2 * next) / 2 == next && bit % 2 == bit
  {
  }

  // ---- Dealing out rows ----

  function Start(h: nat, n: nat, t: nat): (r: nat)
    requires n > 0 && t < n
  {
    (h / n) * t
  }

  function End(h: nat, n: nat, t: nat): (r: nat)
    requires n > 0 && t < n
  {
    if t != n - 1 then (h / n) * (t + 1) else h
  }

  /** The one worker that gets a row. */
  function Owner(h: nat, n: nat, r: nat): (t: nat)
    requires n > 0 && r < h
    ensures t < n
  {
    if h / n == 0 || r / (h / n) >= n then n - 1 else r / (h / n)
  }

  /** Row ranges partition the rows, for any number of workers, more than rows included. */
  lemma RowsPartitioned(h: nat, n: nat, r: nat, t: nat)
    requires n > 0 && r < h && t < n
    ensures Start(h, n, t) <= r < End(h, n, t) <==> t == Owner(h, n, r)
  {
    OwnerOf(h / n, h, n, r, t);
  }

  lemma OwnerOf(q: nat, h: nat, n: nat, r: nat, t: nat)
    requires r < h && t < n
    ensures q * t <= r < (if t != n - 1 then q * (t + 1) else h) <==>
            t == if q == 0 || r / q >= n then n - 1 else r / q
  {
    if q > 0 {
      Share(q, r, t);
      Decide(q * t, q * (t + 1), r / q, h, n, r, t);
    }
  }

  lemma Decide(lo: nat, hi: nat, p: nat, h: nat, n: nat, r: nat, t: nat)
    requires r < h && t < n && (lo <= r <==> t <= p) && (r < hi <==> p <= t)
    ensures lo <= r < (if t != n - 1 then hi else h) <==> t == if p >= n then n - 1 else p
  {
  }

  /** Row r lies before, in or after the t-th share of q rows as its quotient says. */
  lemma Share(q: nat, r: nat, t: nat)
    requires q > 0
    ensures q * t <= r <==> t <= r / q
    ensures r < q * (t + 1) <==> r / q <= t
  {
    var p := r / q;
    Quotient(r, q);
    if t < p {
      Monotone(q, t + 1, p);
    } else if t > p {
      Monotone(q, p + 1, t);
    }
  }

  lemma Quotient(r: nat, q: nat)
    requires q > 0
    ensures q * (r / q) <= r < q * (r / q + 1) && r / q * q <= r
  {
  }

  lemma Monotone(q: nat, a: nat, b: nat)
    requires a <= b
    ensures q * a <= q * b
  {
  }

  lemma RowsInside(h: nat, n: nat, t: nat)
    requires n > 0 && t < n
    ensures Start(h, n, t) <= End(h, n, t) <= h
  {
    var q := h / n;
    assert q * n <= h by { Quotient(h, n); }
    Monotone(q, t, t + 1);
    Monotone(q, t + 1, n);
  }
}
