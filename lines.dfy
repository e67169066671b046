/** Geometry of the 15x15 board and the reference definition of win
    detection: what `check_line` finds on one straight line and what
    `result` makes of all lines (src/board.rs). */
module Lines {
  import opened Cells

  /** Side length of the board (MAP_SIZE). */
  const Size: int := 15

  /** A position or a step, as the signed pairs the line iterator uses. */
  type Vec = (int, int)

  /** A snapshot of the cells, indexed [x][y]. */
  type Grid = seq<seq<Cell>>

  /** A scan line: its start position and its step. */
  type Line = (Vec, Vec)

  predicate WellFormed(g: Grid) {
    |g| == Size && forall x :: 0 <= x < Size ==> |g[x]| == Size
  }

  predicate InBounds(p: Vec) {
    0 <= p.0 < Size && 0 <= p.1 < Size
  }

  function At(g: Grid, p: Vec): Cell
    requires WellFormed(g) && InBounds(p)
  {
    g[p.0][p.1]
  }

  /** A unit step in one of the eight directions. */
  predicate IsDir(v: Vec) {
    -1 <= v.0 <= 1 && -1 <= v.1 <= 1 && v != (0, 0)
  }

  /** The four directions the board is scanned in. */
  predicate IsScanDir(v: Vec) {
    v == (1, 0) || v == (0, 1) || v == (1, 1) || v == (1, -1)
  }

  function Add(p: Vec, v: Vec): Vec {
    (p.0 + v.0, p.1 + v.1)
  }

  /** The position k steps of v away from p. */
  function Offset(p: Vec, v: Vec, k: int): Vec {
    (p.0 + Scale(k, v.0), p.1 + Scale(k, v.1))
  }

  /** k times a step component c, for c in {-1, 0, 1}. */
  function Scale(k: int, c: int): int {
    if c > 0 then k else if c < 0 then -k else 0
  }

  /** Rust's `i32 as usize` on a 64-bit target: sign extension, then
      wrap-around modulo 2^64. */
  function AsUsize(x: int): int {
    x % 0x1_0000_0000_0000_0000
  }

  lemma OffsetAdd(p: Vec, v: Vec, a: int, b: int)
    ensures Offset(Offset(p, v, a), v, b) == Offset(p, v, a + b)
  {
  }

  /** Termination measure of a walk from p along v. */
  function StepsLeft(p: Vec, v: Vec): int {
    if v.0 == 1 then Size - p.0
    else if v.0 == -1 then p.0 + 1
    else if v.1 == 1 then Size - p.1
    else p.1 + 1
  }

  /** The positions a line iterator started at p with step v yields, in order:
      it stops at the first position off the board. */
  function LinePositions(p: Vec, v: Vec): (ps: seq<Vec>)
    requires IsDir(v)
    ensures forall k :: 0 <= k < |ps| ==> InBounds(ps[k])
    decreases StepsLeft(p, v)
  {
    if !InBounds(p) then [] else [p] + LinePositions(Add(p, v), v)
  }

  /** The k-th position of a line is k steps from its start, and the step
      after the last one leaves the board. */
  lemma {:induction false} LinePositionsAt(p: Vec, v: Vec)
    requires IsDir(v)
    ensures forall k :: 0 <= k < |LinePositions(p, v)| ==> LinePositions(p, v)[k] == Offset(p, v, k)
    ensures !InBounds(Offset(p, v, |LinePositions(p, v)|))
    decreases StepsLeft(p, v)
  {
    if InBounds(p) {
      var q := Add(p, v);
      LinePositionsAt(q, v);
      var ps := LinePositions(p, v);
      assert ps == [p] + LinePositions(q, v);
      assert q == Offset(p, v, 1);
      forall k | 0 < k <= |ps|
        ensures Offset(q, v, k - 1) == Offset(p, v, k)
      {
        OffsetAdd(p, v, 1, k - 1);
      }
    }
  }

  /** The k-th position of a line is k steps from its start. */
  lemma LineAt(p: Vec, v: Vec, k: int)
    requires IsDir(v) && 0 <= k < |LinePositions(p, v)|
    ensures LinePositions(p, v)[k] == Offset(p, v, k)
  {
    LinePositionsAt(p, v);
  }

  /** One step from the j-th position of a line is the next position, or
      off the board after the last one. */
  lemma LineStep(p: Vec, v: Vec, j: int)
    requires IsDir(v) && 0 <= j < |LinePositions(p, v)|
    ensures j + 1 < |LinePositions(p, v)| ==> LinePositions(p, v)[j + 1] == Add(LinePositions(p, v)[j], v)
    ensures j + 1 == |LinePositions(p, v)| ==> !InBounds(Add(LinePositions(p, v)[j], v))
  {
    LinePositionsAt(p, v);
    OffsetAdd(p, v, j, 1);
  }

  /** A line contains every position up to k steps from its start when all of
      them are on the board. */
  lemma OnLine(p: Vec, v: Vec, k: int)
    requires IsDir(v) && 0 <= k
    requires forall t :: 0 <= t <= k ==> InBounds(Offset(p, v, t))
    ensures k < |LinePositions(p, v)| && LinePositions(p, v)[k] == Offset(p, v, k)
  {
    LinePositionsAt(p, v);
  }

  /** The cells met at positions ps. */
  function CellsAlong(g: Grid, ps: seq<Vec>): (s: seq<Cell>)
    requires WellFormed(g) && forall k :: 0 <= k < |ps| ==> InBounds(ps[k])
    ensures |s| == |ps| && forall k :: 0 <= k < |ps| ==> s[k] == At(g, ps[k])
  {
    seq(|ps|, k requires 0 <= k < |ps| => At(g, ps[k]))
  }

  /** Five stones of one colour start at index i of s. */
  predicate FiveAt(s: seq<Cell>, i: int) {
    0 <= i && i + 5 <= |s| && s[i] != Empty && forall k :: i <= k < i + 5 ==> s[k] == s[i]
  }

  /** The first index at or after `from` where five stones of one colour
      start, or |s| when there is none. */
  function FirstFive(s: seq<Cell>, from: nat): (i: nat)
    requires from <= |s|
    ensures from <= i <= |s| && (i < |s| ==> i + 5 <= |s|)
    decreases |s| - from
  {
    if from + 5 > |s| then |s|
    else if FiveAt(s, from) then from
    else FirstFive(s, from + 1)
  }

  /** FirstFive finds a window of five, and none before it. */
  lemma {:induction false} FirstFiveSpec(s: seq<Cell>, from: nat)
    requires from <= |s|
    ensures FirstFive(s, from) < |s| ==> FiveAt(s, FirstFive(s, from))
    ensures forall k :: from <= k < FirstFive(s, from) ==> !FiveAt(s, k)
    decreases |s| - from
  {
    if from + 5 <= |s| && !FiveAt(s, from) {
      FirstFiveSpec(s, from + 1);
    }
  }

  /** Conversely, a window of five at i (or the end of s) with none between
      from and i is what FirstFive finds. */
  lemma {:induction false} FirstFiveIs(s: seq<Cell>, from: nat, i: int)
    requires from <= i <= |s| && (i < |s| ==> FiveAt(s, i))
    requires forall k :: from <= k < i ==> !FiveAt(s, k)
    ensures FirstFive(s, from) == i
    decreases i - from
  {
    if from < i && from + 5 <= |s| {
      FirstFiveIs(s, from + 1, i);
    }
  }

  /** The five winning positions of the window at i, latest scanned first,
      converted to usize. */
  function WinLine(ps: seq<Vec>, i: int): seq<(int, int)>
    requires 0 <= i && i + 5 <= |ps|
  {
    seq(5, t requires 0 <= t < 5 => (AsUsize(ps[i + 4 - t].0), AsUsize(ps[i + 4 - t].1)))
  }

  /** On the board the usize conversion changes nothing: the winning line is
      the window's positions, latest first. */
  lemma WinLineOnBoard(ps: seq<Vec>, i: int)
    requires 0 <= i && i + 5 <= |ps| && forall k :: 0 <= k < |ps| ==> InBounds(ps[k])
    ensures |WinLine(ps, i)| == 5 && forall t :: 0 <= t < 5 ==> WinLine(ps, i)[t] == ps[i + 4 - t]
  {
    forall t | 0 <= t < 5
      ensures WinLine(ps, i)[t] == ps[i + 4 - t]
    {
      var q := ps[i + 4 - t];
      assert AsUsize(q.0) == q.0 && AsUsize(q.1) == q.1;
    }
  }

  /** Outcome of scanning cells s met at positions ps: the first five-window
      wins; otherwise an empty square means the line is still open. */
  function ScanOutcome(s: seq<Cell>, ps: seq<Vec>): (r: GameResult)
    requires |s| == |ps|
    ensures r.Decisive() <==> exists k :: FiveAt(s, k)
    ensures r.Decisive() ==> |r.line| == 5
    ensures !r.Decisive() ==> (r == NotFinished <==> Empty in s)
  {
    FirstFiveSpec(s, 0);
    var i := FirstFive(s, 0);
    if i < |s| then
      if s[i] == Black then BlackWon(WinLine(ps, i)) else WhiteWon(WinLine(ps, i))
    else if Empty in s then NotFinished
    else Draw
  }

  /** Reference outcome of one scan line of grid g. */
  function LineOutcome(g: Grid, l: Line): (r: GameResult)
    requires WellFormed(g) && IsDir(l.1)
    ensures r.Decisive() ==> |r.line| == 5 && forall t :: 0 <= t < 5 ==> InBounds(r.line[t])
  {
    var ps := LinePositions(l.0, l.1);
    var s := CellsAlong(g, ps);
    var i := FirstFive(s, 0);
    if i < |s| then WinLineOnBoard(ps, i); ScanOutcome(s, ps)
    else ScanOutcome(s, ps)
  }

  /** Five consecutive squares from q along d are on the board and hold
      stones of one colour. */
  predicate FiveRun(g: Grid, q: Vec, d: Vec)
    requires WellFormed(g)
  {
    InBounds(q) && At(g, q) != Empty &&
    (forall t :: 0 <= t < 5 ==> InBounds(Offset(q, d, t))) &&
    forall t :: 0 <= t < 5 ==> At(g, Offset(q, d, t)) == At(g, q)
  }

  /** A five-run from the k-th position of a line is exactly a window of
      five at index k of the cells along it. */
  lemma FiveRunAt(g: Grid, p: Vec, v: Vec, k: int)
    requires WellFormed(g) && IsDir(v) && 0 <= k && k + 5 <= |LinePositions(p, v)|
    ensures LinePositions(p, v)[k] == Offset(p, v, k)
    ensures FiveRun(g, LinePositions(p, v)[k], v) <==> FiveAt(CellsAlong(g, LinePositions(p, v)), k)
  {
    var ps := LinePositions(p, v);
    var s := CellsAlong(g, ps);
    LinePositionsAt(p, v);
    forall t | 0 <= t < 5
      ensures Offset(ps[k], v, t) == ps[k + t]
    {
      OffsetAdd(p, v, k, t);
    }
    if FiveAt(s, k) {
      forall t | 0 <= t < 5
        ensures At(g, Offset(ps[k], v, t)) == At(g, ps[k])
      {
        assert s[k + t] == s[k];
      }
    }
    if FiveRun(g, ps[k], v) {
      forall m | k <= m < k + 5
        ensures s[m] == s[k]
      {
        assert Offset(ps[k], v, m - k) == ps[m];
      }
    }
  }

  /** A decisive line reports five consecutive positions along its direction,
      latest first, all holding the winner's colour; they are the first such
      window on the line, so a longer run reports its first five stones. */
  lemma LineWin(g: Grid, p: Vec, v: Vec) returns (i: nat)
    requires WellFormed(g) && IsDir(v)
    requires LineOutcome(g, (p, v)).Decisive()
    ensures i + 5 <= |LinePositions(p, v)|
    ensures FiveRun(g, Offset(p, v, i), v)
    ensures At(g, Offset(p, v, i)) == LineOutcome(g, (p, v)).Winner()
    ensures |LineOutcome(g, (p, v)).line| == 5
    ensures forall t :: 0 <= t < 5 ==> LineOutcome(g, (p, v)).line[t] == Offset(Offset(p, v, i), v, 4 - t)
    ensures forall k :: 0 <= k < i ==> !FiveRun(g, Offset(p, v, k), v)
  {
    var ps := LinePositions(p, v);
    var s := CellsAlong(g, ps);
    i := FirstFive(s, 0);
    FirstFiveSpec(s, 0);
    FiveRunAt(g, p, v, i);
    assert LineOutcome(g, (p, v)).line == WinLine(ps, i);
    WinWindow(p, v, i);
    LinePositionsAt(p, v);
    forall k | 0 <= k < i
      ensures !FiveRun(g, Offset(p, v, k), v)
    {
      FiveRunAt(g, p, v, k);
    }
  }

  /** The reported window at i of a line: entry t is 4 - t steps from
      position i. */
  lemma WinWindow(p: Vec, v: Vec, i: int)
    requires IsDir(v) && 0 <= i && i + 5 <= |LinePositions(p, v)|
    ensures |WinLine(LinePositions(p, v), i)| == 5
    ensures forall t :: 0 <= t < 5 ==> WinLine(LinePositions(p, v), i)[t] == Offset(Offset(p, v, i), v, 4 - t)
  {
    var ps := LinePositions(p, v);
    WinLineOnBoard(ps, i);
    forall t | 0 <= t < 5
      ensures WinLine(ps, i)[t] == Offset(Offset(p, v, i), v, 4 - t)
    {
      LineAt(p, v, i + 4 - t);
      OffsetAdd(p, v, i, 4 - t);
    }
  }

  /** A line that is not decisive has no five-run of its own, and it is
      NotFinished exactly when it passes an empty square, Draw otherwise. */
  lemma LineNoWin(g: Grid, p: Vec, v: Vec)
    requires WellFormed(g) && IsDir(v)
    requires !LineOutcome(g, (p, v)).Decisive()
    ensures forall k :: 0 <= k && k + 5 <= |LinePositions(p, v)| ==>
              !FiveRun(g, LinePositions(p, v)[k], v)
    ensures LineOutcome(g, (p, v)) == NotFinished || LineOutcome(g, (p, v)) == Draw
    ensures LineOutcome(g, (p, v)) == NotFinished <==>
              exists k :: 0 <= k < |LinePositions(p, v)| && At(g, LinePositions(p, v)[k]) == Empty
  {
    var ps := LinePositions(p, v);
    var s := CellsAlong(g, ps);
    FirstFiveSpec(s, 0);
    forall k | 0 <= k && k + 5 <= |ps|
      ensures !FiveRun(g, ps[k], v)
    {
      FiveRunAt(g, p, v, k);
    }
    if Empty in s {
      var k :| 0 <= k < |s| && s[k] == Empty;
      assert At(g, ps[k]) == Empty;
    }
  }

  /** A five-run that lies on a line makes that line decisive. */
  lemma FiveRunDecidesLine(g: Grid, l: Line, k: int)
    requires WellFormed(g) && IsDir(l.1) && 0 <= k
    requires forall t :: 0 <= t <= k ==> InBounds(Offset(l.0, l.1, t))
    requires FiveRun(g, Offset(l.0, l.1, k), l.1)
    ensures LineOutcome(g, l).Decisive()
  {
    var (p, v) := l;
    var q := Offset(p, v, k);
    forall t | 0 <= t <= k + 4
      ensures InBounds(Offset(p, v, t))
    {
      if t > k {
        OffsetAdd(p, v, k, t - k);
        assert Offset(p, v, t) == Offset(q, v, t - k);
      }
    }
    OnLine(p, v, k + 4);
    FiveRunAt(g, p, v, k);
    var ps := LinePositions(p, v);
    FirstFiveSpec(CellsAlong(g, ps), 0);
  }

  /** Number of lines `result` scans: four per n in its first loop, two per
      n >= 1 in its second. */
  const ScanCount: int := 4 * Size + 2 * (Size - 1)

  /** The i-th line `result` scans. The first loop scans, for each n, the
      line along x from (0,n), the line along y from (n,0) and both diagonals
      from (0,n); the second loop scans, for n >= 1, the down-right diagonal
      from (n,0) and the other diagonal from (n,14). */
  function ScanLine(i: int): (l: Line)
    requires 0 <= i < ScanCount
    ensures IsScanDir(l.1) && InBounds(l.0)
  {
    if i < 4 * Size then
      var n, kind := i / 4, i % 4;
      if kind == 0 then ((0, n), (1, 0))
      else if kind == 1 then ((n, 0), (0, 1))
      else if kind == 2 then ((0, n), (1, 1))
      else ((0, n), (1, -1))
    else
      var n, kind := (i - 4 * Size) / 2 + 1, (i - 4 * Size) % 2;
      if kind == 0 then ((n, 0), (1, 1)) else ((n, Size - 1), (1, -1))
  }

  /** Every line `result` scans, in the order it scans them. */
  function ScanOrder(): (ls: seq<Line>)
    ensures |ls| == ScanCount
    ensures forall i :: 0 <= i < |ls| ==> ls[i] == ScanLine(i) && IsScanDir(ls[i].1)
  {
    seq(ScanCount, i requires 0 <= i < ScanCount => ScanLine(i))
  }

  /** No line is scanned twice. */
  lemma ScanOrderDistinct()
    ensures forall i, j :: 0 <= i < j < ScanCount ==> ScanOrder()[i] != ScanOrder()[j]
  {
  }

  /** The four lines the first loop of `result` scans for n. */
  lemma ScannedFirstAt(n: int)
    requires 0 <= n < Size
    ensures ScanLine(4 * n) == ((0, n), (1, 0)) && ScanLine(4 * n + 1) == ((n, 0), (0, 1))
    ensures ScanLine(4 * n + 2) == ((0, n), (1, 1)) && ScanLine(4 * n + 3) == ((0, n), (1, -1))
  {
    assert (4 * n) / 4 == n && (4 * n) % 4 == 0;
    assert (4 * n + 1) / 4 == n && (4 * n + 1) % 4 == 1;
    assert (4 * n + 2) / 4 == n && (4 * n + 2) % 4 == 2;
    assert (4 * n + 3) / 4 == n && (4 * n + 3) % 4 == 3;
  }

  /** The two lines the second loop of `result` scans for n. */
  lemma ScannedSecondAt(n: int)
    requires 1 <= n < Size
    ensures ScanLine(4 * Size + 2 * (n - 1)) == ((n, 0), (1, 1))
    ensures ScanLine(4 * Size + 2 * (n - 1) + 1) == ((n, Size - 1), (1, -1))
  {
    assert (2 * (n - 1)) / 2 + 1 == n && (2 * (n - 1)) % 2 == 0;
    assert (2 * (n - 1) + 1) / 2 + 1 == n && (2 * (n - 1) + 1) % 2 == 1;
  }

  lemma ScannedFirst(y: int)
    requires 0 <= y < Size
    ensures ((0, y), (1, 0)) in ScanOrder() && ((y, 0), (0, 1)) in ScanOrder()
    ensures ((0, y), (1, 1)) in ScanOrder() && ((0, y), (1, -1)) in ScanOrder()
  {
    var ls := ScanOrder();
    ScannedFirstAt(y);
    assert ls[4 * y] == ((0, y), (1, 0));
    assert ls[4 * y + 1] == ((y, 0), (0, 1));
    assert ls[4 * y + 2] == ((0, y), (1, 1));
    assert ls[4 * y + 3] == ((0, y), (1, -1));
  }

  lemma ScannedSecond(x: int)
    requires 1 <= x < Size
    ensures ((x, 0), (1, 1)) in ScanOrder() && ((x, Size - 1), (1, -1)) in ScanOrder()
  {
    var ls := ScanOrder();
    ScannedSecondAt(x);
    assert ls[4 * Size + 2 * (x - 1)] == ((x, 0), (1, 1));
    assert ls[4 * Size + 2 * (x - 1) + 1] == ((x, Size - 1), (1, -1));
  }
  /** Every square lies, in every scan direction, on a line that `result`
      scans, k steps after that line's start. */
  lemma LineThrough(q: Vec, d: Vec) returns (l: Line, k: int)
    requires InBounds(q) && IsScanDir(d)
    ensures l in ScanOrder() && l.1 == d && 0 <= k
    ensures forall t :: 0 <= t <= k ==> InBounds(Offset(l.0, d, t))
    ensures Offset(l.0, d, k) == q
  {
    if d == (1, 0) || d == (0, 1) {
      l, k := AxisLineThrough(q, d);
    } else if d == (1, 1) {
      l, k := DiagonalLineThrough(q, d);
    } else {
      l, k := AntiDiagonalLineThrough(q, d);
    }
  }

  lemma AxisLineThrough(q: Vec, d: Vec) returns (l: Line, k: int)
    requires InBounds(q) && (d == (1, 0) || d == (0, 1))
    ensures l in ScanOrder() && l.1 == d && 0 <= k
    ensures forall t :: 0 <= t <= k ==> InBounds(Offset(l.0, d, t))
    ensures Offset(l.0, d, k) == q
  {
    var (x, y) := q;
    if d == (1, 0) {
      l, k := ((0, y), d), x;
      ScannedFirst(y);
      forall t | 0 <= t <= k ensures InBounds(Offset(l.0, d, t)) {
        assert Offset(l.0, d, t) == (t, y);
      }
    } else {
      l, k := ((x, 0), d), y;
      ScannedFirst(x);
      forall t | 0 <= t <= k ensures InBounds(Offset(l.0, d, t)) {
        assert Offset(l.0, d, t) == (x, t);
      }
    }
  }

  lemma DiagonalLineThrough(q: Vec, d: Vec) returns (l: Line, k: int)
    requires InBounds(q) && d == (1, 1)
    ensures l in ScanOrder() && l.1 == d && 0 <= k
    ensures forall t :: 0 <= t <= k ==> InBounds(Offset(l.0, d, t))
    ensures Offset(l.0, d, k) == q
  {
    var (x, y) := q;
    if x <= y {
      l, k := ((0, y - x), d), x;
      ScannedFirst(y - x);
      forall t | 0 <= t <= k ensures InBounds(Offset(l.0, d, t)) {
        assert Offset(l.0, d, t) == (t, y - x + t);
      }
    } else {
      l, k := ((x - y, 0), d), y;
      ScannedSecond(x - y);
      forall t | 0 <= t <= k ensures InBounds(Offset(l.0, d, t)) {
        assert Offset(l.0, d, t) == (x - y + t, t);
      }
    }
  }

  lemma AntiDiagonalLineThrough(q: Vec, d: Vec) returns (l: Line, k: int)
    requires InBounds(q) && d == (1, -1)
    ensures l in ScanOrder() && l.1 == d && 0 <= k
    ensures forall t :: 0 <= t <= k ==> InBounds(Offset(l.0, d, t))
    ensures Offset(l.0, d, k) == q
  {
    var (x, y) := q;
    if x + y < Size {
      l, k := ((0, x + y), d), x;
      ScannedFirst(x + y);
      forall t | 0 <= t <= k ensures InBounds(Offset(l.0, d, t)) {
        assert Offset(l.0, d, t) == (t, x + y - t);
      }
    } else {
      var c := x + y - (Size - 1);
      l, k := ((c, Size - 1), d), Size - 1 - y;
      ScannedSecond(c);
      forall t | 0 <= t <= k ensures InBounds(Offset(l.0, d, t)) {
        assert Offset(l.0, d, t) == (c + t, Size - 1 - t);
      }
    }
  }

  /** Results of the lines ls on grid g, in order. */
  function Outcomes(g: Grid, ls: seq<Line>): (rs: seq<GameResult>)
    requires WellFormed(g) && forall i :: 0 <= i < |ls| ==> IsDir(ls[i].1)
    ensures |rs| == |ls| && forall i :: 0 <= i < |ls| ==> rs[i] == LineOutcome(g, ls[i])
  {
    seq(|ls|, i requires 0 <= i < |ls| => LineOutcome(g, ls[i]))
  }

  /** Reference result of the whole board: Or over every scanned line,
      starting from Draw. */
  function BoardOutcome(g: Grid): (r: GameResult)
    requires WellFormed(g)
    ensures r.Decisive() ==> |r.line| == 5 && forall t :: 0 <= t < 5 ==> InBounds(r.line[t])
  {
    FoldOr(Outcomes(g, ScanOrder()))
  }

  /** rs holds the result of every scanned line, in scan order. */
  ghost predicate ScanResults(g: Grid, rs: seq<GameResult>)
    requires WellFormed(g)
  {
    |rs| == ScanCount &&
    forall k {:trigger LineOutcome(g, ScanLine(k))} :: 0 <= k < ScanCount ==> rs[k] == LineOutcome(g, ScanLine(k))
  }

  /** The results of all scanned lines, in scan order. */
  lemma ScanResultsExist(g: Grid) returns (rs: seq<GameResult>)
    requires WellFormed(g)
    ensures ScanResults(g, rs)
  {
    rs := Outcomes(g, ScanOrder());
  }

  /** Folded with `or` from Draw, the results of all scanned lines are the
      board result. */
  lemma ScanResultsFold(g: Grid, rs: seq<GameResult>)
    requires WellFormed(g) && ScanResults(g, rs)
    ensures FoldOr(rs) == BoardOutcome(g)
  {
    var os := Outcomes(g, ScanOrder());
    assert |os| == |rs|;
    forall k | 0 <= k < ScanCount
      ensures rs[k] == os[k]
    {
      assert LineOutcome(g, ScanLine(k)) == rs[k];
    }
    assert rs == os;
  }

  /** Five stones of one colour in a row in one of the four directions. */
  ghost predicate HasFive(g: Grid)
    requires WellFormed(g)
  {
    exists q, d :: IsScanDir(d) && FiveRun(g, q, d)
  }

  predicate HasEmpty(g: Grid)
    requires WellFormed(g)
  {
    exists x, y :: 0 <= x < Size && 0 <= y < Size && g[x][y] == Empty
  }

  /** A scanned line that is decisive shows a five-run on the board. */
  lemma DecisiveLineHasFive(g: Grid, l: Line)
    requires WellFormed(g) && IsScanDir(l.1) && LineOutcome(g, l).Decisive()
    ensures HasFive(g)
  {
    var i := LineWin(g, l.0, l.1);
    assert FiveRun(g, Offset(l.0, l.1, i), l.1);
  }

  /** The board result is a win exactly when five stones of one colour lie in
      a row, a column or a diagonal. */
  lemma BoardOutcomeDecisive(g: Grid)
    requires WellFormed(g)
    ensures BoardOutcome(g).Decisive() <==> HasFive(g)
  {
    var ls := ScanOrder();
    var rs := Outcomes(g, ls);
    FoldOrDecisive(rs);
    if HasFive(g) {
      var q, d :| IsScanDir(d) && FiveRun(g, q, d);
      var l, k := LineThrough(q, d);
      FiveRunDecidesLine(g, l, k);
      var i :| 0 <= i < |ls| && ls[i] == l;
      assert rs[i].Decisive();
    }
    if BoardOutcome(g).Decisive() {
      var i :| 0 <= i < |rs| && rs[i].Decisive();
      DecisiveLineHasFive(g, ls[i]);
    }
  }

  /** An empty square leaves the line along x through it NotFinished. */
  lemma EmptySquareOpensLine(g: Grid, x: int, y: int) returns (i: int)
    requires WellFormed(g) && !HasFive(g)
    requires 0 <= x < Size && 0 <= y < Size && g[x][y] == Empty
    ensures 0 <= i < ScanCount && LineOutcome(g, ScanOrder()[i]) == NotFinished
  {
    var l := ((0, y), (1, 0));
    ScannedFirst(y);
    forall t | 0 <= t <= x
      ensures InBounds(Offset(l.0, l.1, t))
    {
      assert Offset(l.0, l.1, t) == (t, y);
    }
    OnLine(l.0, l.1, x);
    assert At(g, LinePositions(l.0, l.1)[x]) == Empty;
    if LineOutcome(g, l).Decisive() {
      DecisiveLineHasFive(g, l);
    }
    LineNoWin(g, l.0, l.1);
    i :| 0 <= i < ScanCount && ScanOrder()[i] == l;
  }

  /** A NotFinished line passes an empty square. */
  lemma OpenLineHasEmpty(g: Grid, l: Line)
    requires WellFormed(g) && IsDir(l.1) && LineOutcome(g, l) == NotFinished
    ensures HasEmpty(g)
  {
    LineNoWin(g, l.0, l.1);
    var ps := LinePositions(l.0, l.1);
    var k :| 0 <= k < |ps| && At(g, ps[k]) == Empty;
    assert g[ps[k].0][ps[k].1] == Empty;
  }

  /** Without a five-run, the board result is NotFinished when a square is
      empty and Draw when the board is full. */
  lemma BoardOutcomeUndecided(g: Grid)
    requires WellFormed(g) && !HasFive(g)
    ensures BoardOutcome(g) == if HasEmpty(g) then NotFinished else Draw
  {
    var ls := ScanOrder();
    var rs := Outcomes(g, ls);
    forall i | 0 <= i < |rs|
      ensures !rs[i].Decisive()
    {
      if rs[i].Decisive() {
        DecisiveLineHasFive(g, ls[i]);
      }
    }
    FoldOrUndecided(rs);
    if HasEmpty(g) {
      var x, y :| 0 <= x < Size && 0 <= y < Size && g[x][y] == Empty;
      var i := EmptySquareOpensLine(g, x, y);
      assert rs[i] == NotFinished;
    }
    if exists i :: 0 <= i < |rs| && rs[i] == NotFinished {
      var i :| 0 <= i < |rs| && rs[i] == NotFinished;
      OpenLineHasEmpty(g, ls[i]);
    }
  }

  /** A decisive board result is the result of the first decisive line in
      scan order. */
  lemma FirstDecisiveLine(g: Grid) returns (i: int)
    requires WellFormed(g) && BoardOutcome(g).Decisive()
    ensures 0 <= i < ScanCount && BoardOutcome(g) == LineOutcome(g, ScanOrder()[i])
    ensures forall k :: 0 <= k < i ==> !LineOutcome(g, ScanOrder()[k]).Decisive()
  {
    var rs := Outcomes(g, ScanOrder());
    FoldOrDecisive(rs);
    i := FirstDecisive(rs);
    FoldOrFirstDecisive(rs, i);
  }

  /** A winning board reports five consecutive positions, latest first,
      along a scan direction, all of the winner's colour. */
  lemma BoardWin(g: Grid) returns (q: Vec, d: Vec)
    requires WellFormed(g) && BoardOutcome(g).Decisive()
    ensures IsScanDir(d) && FiveRun(g, q, d) && At(g, q) == BoardOutcome(g).Winner()
    ensures |BoardOutcome(g).line| == 5
    ensures forall t :: 0 <= t < 5 ==> BoardOutcome(g).line[t] == Offset(q, d, 4 - t)
  {
    var i := FirstDecisiveLine(g);
    var (p, v) := ScanOrder()[i];
    var j := LineWin(g, p, v);
    q, d := Offset(p, v, j), v;
  }
}
