/** The mutable board of src/board.rs: the cell array, the move log and the
    redo stack, the line iterator over the cells, and the scan that decides
    the game. Each method is proved against the value-level definitions of
    modules Lines and History. */
module GomokuBoard {
  import opened Cells
  import opened Lines
  import History

  /** The cells of a 15x15 array as a grid value. */
  ghost function GridOf(a: array2<Cell>): (g: Grid)
    reads a
    requires a.Length0 == Size && a.Length1 == Size
    ensures WellFormed(g)
    ensures forall x, y :: 0 <= x < Size && 0 <= y < Size ==> g[x][y] == a[x, y]
  {
    seq(Size, x reads a requires 0 <= x < Size => seq(Size, y reads a requires 0 <= y < Size => a[x, y]))
  }

  /** `BoardLineIterator`: walks the cells from p in steps of v. */
  class LineIterator {
    var p: Vec
    const v: Vec
    const cells: array2<Cell>

    constructor (p: Vec, v: Vec, cells: array2<Cell>)
      ensures this.p == p && this.v == v && this.cells == cells
    {
      this.p := p;
      this.v := v;
      this.cells := cells;
    }

    /** `next`: the cell at p, moving p one step on; nothing, and no move,
        once p has left the board. */
    method Next() returns (c: Option<Cell>)
      requires cells.Length0 == Size && cells.Length1 == Size
      modifies this
      ensures InBounds(old(p)) ==> c == Some(cells[old(p).0, old(p).1]) && p == Add(old(p), v)
      ensures !InBounds(old(p)) ==> c == None && p == old(p)
    {
      if p.0 < 0 || p.1 < 0 || p.0 >= Size || p.1 >= Size {
        return None;
      }
      var cell := cells[p.0, p.1];
      p := (p.0 + v.0, p.1 + v.1);
      c := Some(cell);
    }

    /** `last5`: the five positions behind p, nearest first, cast to usize. */
    function Last5(): (ps: seq<(int, int)>)
      reads this
      ensures |ps| == 5
    {
      [(AsUsize(p.0 - v.0 * 1), AsUsize(p.1 - v.1 * 1)),
       (AsUsize(p.0 - v.0 * 2), AsUsize(p.1 - v.1 * 2)),
       (AsUsize(p.0 - v.0 * 3), AsUsize(p.1 - v.1 * 3)),
       (AsUsize(p.0 - v.0 * 4), AsUsize(p.1 - v.1 * 4)),
       (AsUsize(p.0 - v.0 * 5), AsUsize(p.1 - v.1 * 5))]
    }
  }

  /** Entry k of `last5` is the position k + 1 steps of v behind p. */
  lemma Last5Behind(it: LineIterator)
    requires IsDir(it.v)
    ensures forall k :: 0 <= k < 5 ==>
      it.Last5()[k] == (AsUsize(Offset(it.p, it.v, -(k + 1)).0), AsUsize(Offset(it.p, it.v, -(k + 1)).1))
  {
    var p, v := it.p, it.v;
    assert Offset(p, v, -1) == (p.0 - v.0 * 1, p.1 - v.1 * 1);
    assert Offset(p, v, -2) == (p.0 - v.0 * 2, p.1 - v.1 * 2);
    assert Offset(p, v, -3) == (p.0 - v.0 * 3, p.1 - v.1 * 3);
    assert Offset(p, v, -4) == (p.0 - v.0 * 4, p.1 - v.1 * 4);
    assert Offset(p, v, -5) == (p.0 - v.0 * 5, p.1 - v.1 * 5);
  }

  /** No window of five of one colour starts below j - 4. */
  ghost predicate NoFiveBefore(s: seq<Cell>, j: int) {
    forall k :: 0 <= k && k + 5 <= j ==> !FiveAt(s, k)
  }

  /** The cells s[..j] end in a run of one colour exactly as long as
      `stack`, and `stack` holds that colour. */
  ghost predicate RunAtEnd(s: seq<Cell>, j: int, stack: seq<Cell>) {
    |stack| <= j <= |s| &&
    (forall k :: 0 <= k < |stack| ==> stack[k] == s[j - 1]) &&
    (forall k :: j - |stack| <= k < j ==> s[k] == s[j - 1] && s[k] != Empty) &&
    (0 < j && stack == [] ==> s[j - 1] == Empty) &&
    (0 < |stack| < j ==> s[j - |stack| - 1] != s[j - 1])
  }

  /** The run-length automaton of `check_line` over the cells s met at
      positions ps, from index j with the current run `stack` and the
      empty-square flag `hasSpace`. */
  function ScanFrom(s: seq<Cell>, ps: seq<Vec>, j: int, stack: seq<Cell>, hasSpace: bool): (r: GameResult)
    requires |s| == |ps| && 0 <= |stack| <= j <= |s| && |stack| < 5
    ensures r.Decisive() ==> |r.line| == 5
    ensures !r.Decisive() ==> (r == NotFinished <==> hasSpace || Empty in s[j..])
    decreases |s| - j
  {
    assert j < |s| ==> s[j..] == [s[j]] + s[j + 1..];
    if j == |s| then (if hasSpace then NotFinished else Draw)
    else if s[j] == Empty then ScanFrom(s, ps, j + 1, [], true)
    else if stack == [] || stack[|stack| - 1] == s[j] then
      if |stack| + 1 == 5 then
        (if s[j] == Black then BlackWon(WinLine(ps, j - 4)) else WhiteWon(WinLine(ps, j - 4)))
      else ScanFrom(s, ps, j + 1, stack + [s[j]], hasSpace)
    else ScanFrom(s, ps, j + 1, [s[j]], hasSpace)
  }

  /** What the loop of `check_line` knows after the first j cells: the
      current run is shorter than five, no window of five has been passed, and
      `hasSpace` records whether an empty square was met. */
  ghost predicate Scanned(s: seq<Cell>, j: int, stack: seq<Cell>, hasSpace: bool) {
    |stack| < 5 && RunAtEnd(s, j, stack) && NoFiveBefore(s, j) && (hasSpace <==> Empty in s[..j])
  }

  /** An empty square ends the run. */
  lemma RunEmpty(s: seq<Cell>, j: int, stack: seq<Cell>, hasSpace: bool)
    requires Scanned(s, j, stack, hasSpace) && j < |s| && s[j] == Empty
    ensures Scanned(s, j + 1, [], true)
  {
    assert s[..j + 1] == s[..j] + [s[j]];
    if 4 <= j {
      assert !FiveAt(s, j - 4) by {
        assert s[j] == Empty;
      }
    }
  }

  /** A stone of the run's colour, or the first stone after an empty square,
      lengthens the run; the fifth completes the first window of five. */
  lemma RunExtend(s: seq<Cell>, j: int, stack: seq<Cell>, hasSpace: bool)
    requires Scanned(s, j, stack, hasSpace)
    requires j < |s| && s[j] != Empty && (stack == [] || stack[|stack| - 1] == s[j])
    ensures |stack| + 1 < 5 ==> Scanned(s, j + 1, stack + [s[j]], hasSpace)
    ensures |stack| + 1 == 5 ==> FiveAt(s, j - 4) && NoFiveBefore(s, j)
  {
    assert s[..j + 1] == s[..j] + [s[j]];
    var n := |stack|;
    if n > 0 {
      assert s[j - 1] == s[j];
    }
    if n + 1 < 5 && 4 <= j {
      assert !FiveAt(s, j - 4) by {
        if n == 0 {
          assert s[j - 1] == Empty;
        } else {
          assert s[j - n - 1] != s[j];
        }
      }
    }
  }

  /** A stone of the other colour starts a new run of one. */
  lemma RunRestart(s: seq<Cell>, j: int, stack: seq<Cell>, hasSpace: bool)
    requires Scanned(s, j, stack, hasSpace)
    requires j < |s| && s[j] != Empty && stack != [] && stack[|stack| - 1] != s[j]
    ensures Scanned(s, j + 1, [s[j]], hasSpace)
  {
    assert s[..j + 1] == s[..j] + [s[j]];
    assert s[j - 1] != s[j];
    if 4 <= j {
      assert !FiveAt(s, j - 4) by {
        assert s[j - 1] != s[j];
      }
    }
  }

  /** At the end of the line nothing was won, and the line is open exactly
      when an empty square was met. */
  lemma ScannedAll(s: seq<Cell>, ps: seq<Vec>, stack: seq<Cell>, hasSpace: bool)
    requires |s| == |ps| && Scanned(s, |s|, stack, hasSpace)
    ensures ScanOutcome(s, ps) == if hasSpace then NotFinished else Draw
  {
    assert s[..|s|] == s;
    FirstFiveIs(s, 0, |s|);
  }

  /** From any point the automaton has reached, it ends with the outcome of
      the reference definition: the first window of five, or else open
      exactly when an empty square occurs. */
  lemma {:induction false} ScanFromOutcome(s: seq<Cell>, ps: seq<Vec>, j: int, stack: seq<Cell>, hasSpace: bool)
    requires |s| == |ps| && 0 <= j <= |s| && Scanned(s, j, stack, hasSpace)
    ensures ScanFrom(s, ps, j, stack, hasSpace) == ScanOutcome(s, ps)
    decreases |s| - j
  {
    if j == |s| {
      ScannedAll(s, ps, stack, hasSpace);
    } else if s[j] == Empty {
      RunEmpty(s, j, stack, hasSpace);
      ScanFromOutcome(s, ps, j + 1, [], true);
    } else if stack == [] || stack[|stack| - 1] == s[j] {
      RunExtend(s, j, stack, hasSpace);
      if |stack| + 1 == 5 {
        WinOutcome(s, ps, j);
      } else {
        ScanFromOutcome(s, ps, j + 1, stack + [s[j]], hasSpace);
      }
    } else {
      RunRestart(s, j, stack, hasSpace);
      ScanFromOutcome(s, ps, j + 1, [s[j]], hasSpace);
    }
  }

  /** `check_line`: runs the iterator to the end of its line, counting the
      current run of one colour; five in a row win at once, and otherwise the
      line is open exactly when it met an empty square. */
  method CheckLine(line: LineIterator) returns (r: GameResult)
    requires line.cells.Length0 == Size && line.cells.Length1 == Size && IsDir(line.v)
    modifies line
    ensures r == LineOutcome(GridOf(line.cells), (old(line.p), line.v))
  {
    ghost var g := GridOf(line.cells);
    ghost var p0, v := line.p, line.v;
    ghost var ps := LinePositions(p0, v);
    ghost var s := CellsAlong(g, ps);
    ScanFromOutcome(s, ps, 0, [], false);
    ghost var j := 0;
    var stack: seq<Cell> := [];
    var hasSpace := false;
    while true
      invariant 0 <= |stack| <= j <= |ps| && |stack| < 5
      invariant j < |ps| ==> line.p == ps[j]
      invariant j == |ps| ==> !InBounds(line.p)
      invariant ScanFrom(s, ps, j, stack, hasSpace) == ScanOutcome(s, ps)
      decreases |ps| - j
    {
      var next := line.Next();
      if next.None? {
        break;
      }
      assert j < |ps| && next.value == s[j];
      LineStep(p0, v, j);
      var cell := next.value;
      if cell == Empty {
        stack := [];
        hasSpace := true;
      } else if stack == [] || stack[|stack| - 1] == cell {
        stack := stack + [cell];
        if |stack| == 5 {
          Last5Behind(line);
          BehindIsWindow(p0, v, j, line.p, line.Last5());
          return if cell == Black then BlackWon(line.Last5()) else WhiteWon(line.Last5());
        }
      } else {
        stack := [cell];
      }
      j := j + 1;
    }
    r := if hasSpace then NotFinished else Draw;
  }

  /** A window of five ending at j with none before it decides the scan for
      the colour at j. */
  lemma WinOutcome(s: seq<Cell>, ps: seq<Vec>, j: int)
    requires |s| == |ps| && FiveAt(s, j - 4) && NoFiveBefore(s, j)
    ensures ScanOutcome(s, ps) == if s[j] == Black then BlackWon(WinLine(ps, j - 4)) else WhiteWon(WinLine(ps, j - 4))
  {
    FirstFiveIs(s, 0, j - 4);
    assert s[j] == s[j - 4];
  }

  /** When the iterator stands just past index j of its line, the positions
      behind it are the window ending at j, latest first. */
  lemma BehindIsWindow(p0: Vec, v: Vec, j: int, p: Vec, last: seq<(int, int)>)
    requires IsDir(v) && 4 <= j < |LinePositions(p0, v)|
    requires p == Add(LinePositions(p0, v)[j], v) && |last| == 5
    requires forall k :: 0 <= k < 5 ==> last[k] == (AsUsize(Offset(p, v, -(k + 1)).0), AsUsize(Offset(p, v, -(k + 1)).1))
    ensures last == WinLine(LinePositions(p0, v), j - 4)
  {
    var ps := LinePositions(p0, v);
    forall t | 0 <= t < 5
      ensures last[t] == WinLine(ps, j - 4)[t]
    {
      LineAt(p0, v, j);
      LineAt(p0, v, j - t);
      StepsBack(p0, v, j, t);
    }
  }

  /** t + 1 steps back from j + 1 steps along v is j - t steps along v. */
  lemma StepsBack(p0: Vec, v: Vec, j: int, t: int)
    requires IsDir(v)
    ensures Offset(Add(Offset(p0, v, j), v), v, -(t + 1)) == Offset(p0, v, j - t)
  {
    OffsetAdd(p0, v, j, 1);
    OffsetAdd(p0, v, j + 1, -(t + 1));
  }

  /** m maps each of the first i moves to one more than the index of its
      last occurrence among them. */
  ghost predicate IdsUpTo(ms: seq<Vec>, i: int, m: map<Vec, int>)
    requires 0 <= i <= |ms|
  {
    (forall p :: p in m <==> p in ms[..i]) &&
    (forall p :: p in m ==> 1 <= m[p] <= i && ms[m[p] - 1] == p) &&
    (forall p, k :: p in m && m[p] <= k < i ==> ms[k] != p)
  }

  /** Recording move i as id i + 1 extends the map by one move. */
  lemma IdsStep(ms: seq<Vec>, i: int, m: map<Vec, int>)
    requires 0 <= i < |ms| && IdsUpTo(ms, i, m)
    ensures IdsUpTo(ms, i + 1, m[ms[i] := i + 1])
  {
    assert ms[..i + 1] == ms[..i] + [ms[i]];
  }

  /** When no move repeats, the id of the k-th move is k + 1. */
  lemma IdsOfDistinct(ms: seq<Vec>, m: map<Vec, int>)
    requires forall p :: p in m <==> p in ms
    requires forall p :: p in m ==> 1 <= m[p] <= |ms| && ms[m[p] - 1] == p
    ensures History.Distinct(ms) ==> forall k :: 0 <= k < |ms| ==> m[ms[k]] == k + 1
  {
    if History.Distinct(ms) {
      forall k | 0 <= k < |ms|
        ensures m[ms[k]] == k + 1
      {
        var p := ms[k];
        assert ms[m[p] - 1] == p;
      }
    }
  }

  /** `Board`: the 15x15 cells, the log of played moves and the stack of
      undone moves (latest last). */
  class Board {
    var cells: array2<Cell>
    var moves: seq<Vec>
    var redoStack: seq<Vec>

    ghost predicate Valid()
      reads this
    {
      cells.Length0 == Size && cells.Length1 == Size &&
      History.AllInBounds(moves) && History.AllInBounds(redoStack)
    }

    /** The board as a value. */
    ghost function State(): (s: History.BoardState)
      reads this, cells
      requires Valid()
      ensures History.Valid(s)
    {
      History.BoardState(GridOf(cells), moves, redoStack)
    }

    /** `Board::default`: an empty board with nothing logged. */
    constructor ()
      ensures Valid() && fresh(cells) && State() == History.Initial()
    {
      cells := new Cell[Size, Size]((x, y) => Empty);
      moves := [];
      redoStack := [];
      new;
      History.GridExt(GridOf(cells), History.EmptyGrid());
    }

    /** `can_undo`: some move is logged. */
    function CanUndo(): (b: bool)
      reads this
      ensures b <==> |moves| > 0
    {
      moves != []
    }

    /** `can_redo`: some undone move can be replayed. */
    function CanRedo(): (b: bool)
      reads this
      ensures b <==> |redoStack| > 0
    {
      redoStack != []
    }

    /** `next_color`: Black on an even number of logged moves. */
    function NextColor(): (c: Cell)
      reads this
      ensures c == History.ColorOfPly(|moves|)
    {
      if |moves| % 2 == 0 then Black else White
    }

    /** `human_comes`: whether the player holding the colour to move is a
        person. */
    function HumanComes(blackPlayer: PlayerInt, whitePlayer: PlayerInt): (b: bool)
      reads this
      ensures b <==> (if NextColor() == Black then blackPlayer else whitePlayer) == Human
    {
      [blackPlayer, whitePlayer][|moves| % 2] == Human
    }

    /** `cell`: the content of square (x, y). */
    function CellAt(x: int, y: int): (c: Cell)
      reads this, cells
      requires Valid() && InBounds((x, y))
      ensures c == At(State().grid, (x, y))
    {
      cells[x, y]
    }

    /** `move_to_id_map`: each logged square mapped to its 1-based move
        number; a square logged twice keeps the later number. */
    method MoveToIdMap() returns (m: map<Vec, int>)
      ensures forall p :: p in m <==> p in moves
      ensures forall p :: p in m ==> 1 <= m[p] <= |moves| && moves[m[p] - 1] == p
      ensures forall p, k :: p in m && m[p] <= k < |moves| ==> moves[k] != p
      ensures History.Distinct(moves) ==> forall k :: 0 <= k < |moves| ==> m[moves[k]] == k + 1
    {
      var ms := moves;
      m := map[];
      for i := 0 to |ms|
        invariant IdsUpTo(ms, i, m)
      {
        IdsStep(ms, i, m);
        m := m[ms[i] := i + 1];
      }
      assert ms[..|ms|] == ms;
      IdsOfDistinct(ms, m);
    }

    /** `put_mayredo`: the colour to move goes to (x, y), the square is
        logged, the redo stack is emptied when asked, and the new result of
        the board is returned. */
    method PutMayRedo(x: int, y: int, clearRedo: bool) returns (r: GameResult)
      requires Valid() && InBounds((x, y))
      modifies this, cells
      ensures Valid() && cells == old(cells)
      ensures State() == History.PutMayRedo(old(State()), (x, y), clearRedo)
      ensures r == BoardOutcome(State().grid)
    {
      ghost var s0 := State();
      cells[x, y] := NextColor();
      moves := moves + [(x, y)];
      if clearRedo {
        redoStack := [];
      }
      History.GridExt(GridOf(cells), History.Place(s0.grid, (x, y), History.NextColor(s0)));
      r := Result();
    }

    /** `put`: a new move, which discards the undone moves. */
    method Put(x: int, y: int) returns (r: GameResult)
      requires Valid() && InBounds((x, y))
      modifies this, cells
      ensures Valid() && cells == old(cells)
      ensures State() == History.Put(old(State()), (x, y))
      ensures r == BoardOutcome(State().grid)
    {
      r := PutMayRedo(x, y, true);
    }

    /** `undo`: takes the last move back onto the redo stack; nothing happens
        on an empty log. */
    method Undo()
      requires Valid()
      modifies this, cells
      ensures Valid() && cells == old(cells)
      ensures State() == History.Undo(old(State()))
    {
      if moves != [] {
        ghost var s0 := State();
        var p := moves[|moves| - 1];
        moves := moves[..|moves| - 1];
        cells[p.0, p.1] := Empty;
        redoStack := redoStack + [p];
        History.GridExt(GridOf(cells), History.Place(s0.grid, p, Empty));
      }
    }

    /** `redo_step`: the square a redo would play, if any. */
    method RedoStep() returns (o: Option<Vec>)
      requires Valid()
      ensures o.None? <==> !CanRedo()
      ensures o.Some? ==> History.Redo(State()).moves == moves + [o.value]
    {
      if redoStack == [] {
        o := None;
      } else {
        o := Some(redoStack[|redoStack| - 1]);
      }
    }

    /** `redo`: replays the latest undone move, keeping the rest of the redo
        stack; there must be one. */
    method Redo() returns (r: GameResult)
      requires Valid() && CanRedo()
      modifies this, cells
      ensures Valid() && cells == old(cells)
      ensures State() == History.Redo(old(State()))
      ensures r == BoardOutcome(State().grid)
    {
      var p := redoStack[|redoStack| - 1];
      redoStack := redoStack[..|redoStack| - 1];
      r := PutMayRedo(p.0, p.1, false);
    }

    /** `line`: an iterator over the cells from pos in steps of dir. */
    method Line(pos: Vec, dir: Vec) returns (it: LineIterator)
      ensures fresh(it) && it.p == pos && it.v == dir && it.cells == cells
    {
      it := new LineIterator(pos, dir, cells);
    }

    /** One statement of `result`: `res.or(check_line(line(pos, dir)))`
        for the i-th line of the scan order, where rs holds the result of
        every line. */
    method OrLine(ghost g: Grid, ghost rs: seq<GameResult>, res: GameResult, pos: Vec, dir: Vec, ghost i: int)
      returns (r: GameResult)
      requires cells.Length0 == Size && cells.Length1 == Size && g == GridOf(cells) && ScanResults(g, rs)
      requires 0 <= i < ScanCount && ScanLine(i) == (pos, dir)
      requires res == FoldOr(rs[..i])
      ensures r == FoldOr(rs[..i + 1])
    {
      var it := Line(pos, dir);
      var lr := CheckLine(it);
      r := res.Or(lr);
      assert rs[..i + 1][..i] == rs[..i];
    }

    /** `result`: combines with `or`, starting from Draw, the outcome of every
        line in scan order. */
    method Result() returns (r: GameResult)
      requires Valid()
      ensures r == BoardOutcome(State().grid)
    {
      ghost var g := GridOf(cells);
      ghost var rs := ScanResultsExist(g);
      r := Draw;
      for n := 0 to Size
        invariant r == FoldOr(rs[..4 * n])
      {
        ScannedFirstAt(n);
        r := OrLine(g, rs, r, (0, n), (1, 0), 4 * n);
        r := OrLine(g, rs, r, (n, 0), (0, 1), 4 * n + 1);
        r := OrLine(g, rs, r, (0, n), (1, 1), 4 * n + 2);
        r := OrLine(g, rs, r, (0, n), (1, -1), 4 * n + 3);
      }
      for n := 1 to Size
        invariant r == FoldOr(rs[..4 * Size + 2 * (n - 1)])
      {
        ScannedSecondAt(n);
        r := OrLine(g, rs, r, (n, 0), (1, 1), 4 * Size + 2 * (n - 1));
        r := OrLine(g, rs, r, (n, Size - 1), (1, -1), 4 * Size + 2 * (n - 1) + 1);
      }
      assert rs[..ScanCount] == rs;
      ScanResultsFold(g, rs);
    }

    /** `load_from_string`, after JSON decoding: on a decoding error
        (`parsed` is None) nothing changes; otherwise the board is reset and
        the moves are put in order. */
    method LoadFromString(parsed: Option<seq<Vec>>) returns (ok: bool)
      requires Valid()
      requires parsed.Some? ==> History.AllInBounds(parsed.value)
      modifies this
      ensures Valid()
      ensures ok <==> parsed.Some?
      ensures !ok ==> cells == old(cells) && moves == old(moves) && redoStack == old(redoStack)
      ensures ok ==> State() == History.Replay(parsed.value)
    {
      if parsed.None? {
        return false;
      }
      var ms := parsed.value;
      cells := new Cell[Size, Size]((x, y) => Empty);
      moves := [];
      redoStack := [];
      History.GridExt(GridOf(cells), History.EmptyGrid());
      for i := 0 to |ms|
        invariant Valid() && fresh(cells)
        invariant State() == History.Replay(ms[..i])
      {
        History.ReplayStep(ms, i);
        var _ := Put(ms[i].0, ms[i].1);
      }
      assert ms[..|ms|] == ms;
      ok := true;
    }
  }
}
