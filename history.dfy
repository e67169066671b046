/** The board's state as a value, and what put, undo, redo and replay do to
    it (src/board.rs, `Board`). */
module History {
  import opened Cells
  import opened Lines

  /** The colour of ply n (counting from 0): Black plays the even plies. */
  function ColorOfPly(n: nat): Cell {
    if n % 2 == 0 then Black else White
  }

  /** Black opens, and the colours alternate. */
  lemma PlyColors(n: nat)
    ensures ColorOfPly(0) == Black
    ensures ColorOfPly(n) != Empty && ColorOfPly(n + 1) == Opponent(ColorOfPly(n))
  {
  }

  /** Cells, the move log, and the stack of undone moves (latest last). */
  datatype BoardState = BoardState(grid: Grid, moves: seq<Vec>, redoStack: seq<Vec>)

  predicate AllInBounds(ps: seq<Vec>) {
    forall k :: 0 <= k < |ps| ==> InBounds(ps[k])
  }

  predicate Valid(s: BoardState) {
    WellFormed(s.grid) && AllInBounds(s.moves) && AllInBounds(s.redoStack)
  }

  function EmptyGrid(): (g: Grid)
    ensures WellFormed(g) && forall q :: InBounds(q) ==> At(g, q) == Empty
  {
    seq(Size, x => seq(Size, y => Empty))
  }

  /** The default board. */
  function Initial(): (s: BoardState)
    ensures Valid(s)
  {
    BoardState(EmptyGrid(), [], [])
  }

  /** The colour to play next. */
  function NextColor(s: BoardState): (c: Cell)
    ensures c != Empty && (c == Black <==> |s.moves| % 2 == 0)
  {
    ColorOfPly(|s.moves|)
  }

  /** Grid g with the square at p set to c. */
  function Place(g: Grid, p: Vec, c: Cell): (r: Grid)
    requires WellFormed(g) && InBounds(p)
    ensures WellFormed(r)
    ensures forall q :: InBounds(q) ==> At(r, q) == if q == p then c else At(g, q)
  {
    g[p.0 := g[p.0][p.1 := c]]
  }

  /** Two grids that agree on every square are equal. */
  lemma GridExt(g: Grid, h: Grid)
    requires WellFormed(g) && WellFormed(h)
    requires forall q :: InBounds(q) ==> At(g, q) == At(h, q)
    ensures g == h
  {
    forall x | 0 <= x < Size
      ensures g[x] == h[x]
    {
      forall y | 0 <= y < Size
        ensures g[x][y] == h[x][y]
      {
        assert At(g, (x, y)) == At(h, (x, y));
      }
    }
  }

  /** `put_mayredo`: the next colour goes to p, p is logged, and the redo
      stack is emptied only when asked. */
  function PutMayRedo(s: BoardState, p: Vec, clearRedo: bool): (r: BoardState)
    requires Valid(s) && InBounds(p)
    ensures Valid(r) && r.moves == s.moves + [p]
    ensures At(r.grid, p) == NextColor(s)
    ensures forall q :: InBounds(q) && q != p ==> At(r.grid, q) == At(s.grid, q)
    ensures r.redoStack == if clearRedo then [] else s.redoStack
  {
    BoardState(Place(s.grid, p, NextColor(s)), s.moves + [p], if clearRedo then [] else s.redoStack)
  }

  /** `put`: a new move, which discards every undone move. */
  function Put(s: BoardState, p: Vec): (r: BoardState)
    requires Valid(s) && InBounds(p)
    ensures Valid(r) && r.moves == s.moves + [p] && r.redoStack == []
    ensures At(r.grid, p) == NextColor(s)
    ensures forall q :: InBounds(q) && q != p ==> At(r.grid, q) == At(s.grid, q)
  {
    PutMayRedo(s, p, true)
  }

  /** `undo`: nothing on an empty log; otherwise the last move is taken off
      the log, its square emptied and the move pushed on the redo stack. */
  function Undo(s: BoardState): (r: BoardState)
    requires Valid(s)
    ensures Valid(r)
    ensures s.moves == [] ==> r == s
    ensures s.moves != [] ==>
      var p := s.moves[|s.moves| - 1];
      r.moves + [p] == s.moves && r.redoStack == s.redoStack + [p] && At(r.grid, p) == Empty &&
      forall q :: InBounds(q) && q != p ==> At(r.grid, q) == At(s.grid, q)
  {
    if s.moves == [] then s
    else
      var p := s.moves[|s.moves| - 1];
      BoardState(Place(s.grid, p, Empty), s.moves[..|s.moves| - 1], s.redoStack + [p])
  }

  /** `redo`: the latest undone move is popped and played again, keeping the
      rest of the redo stack. */
  function Redo(s: BoardState): (r: BoardState)
    requires Valid(s) && s.redoStack != []
    ensures Valid(r)
    ensures var p := s.redoStack[|s.redoStack| - 1];
      r.moves == s.moves + [p] && r.redoStack + [p] == s.redoStack && At(r.grid, p) == NextColor(s) &&
      forall q :: InBounds(q) && q != p ==> At(r.grid, q) == At(s.grid, q)
  {
    var p := s.redoStack[|s.redoStack| - 1];
    PutMayRedo(s.(redoStack := s.redoStack[..|s.redoStack| - 1]), p, false)
  }

  /** A default board followed by `put` of each move of ms in order. */
  function Replay(ms: seq<Vec>): (s: BoardState)
    requires AllInBounds(ms)
    ensures Valid(s)
    ensures forall k :: 0 <= k < |ms| ==> At(s.grid, ms[k]) != Empty
    ensures forall q :: InBounds(q) && q !in ms ==> At(s.grid, q) == Empty
  {
    if ms == [] then Initial() else Put(Replay(ms[..|ms| - 1]), ms[|ms| - 1])
  }

  predicate Distinct(ps: seq<Vec>) {
    forall i, j :: 0 <= i < j < |ps| ==> ps[i] != ps[j]
  }

  /** The invariant of a board on which every move went to an empty square:
      logged and undone moves are all different, the i-th logged move holds
      the colour of ply i, and every stone on the board is a logged move. */
  ghost predicate Consistent(s: BoardState) {
    Valid(s) && Distinct(s.moves) && Distinct(s.redoStack) &&
    (forall i, j :: 0 <= i < |s.moves| && 0 <= j < |s.redoStack| ==> s.moves[i] != s.redoStack[j]) &&
    (forall i :: 0 <= i < |s.moves| ==> At(s.grid, s.moves[i]) == ColorOfPly(i)) &&
    (forall q :: InBounds(q) && At(s.grid, q) != Empty ==> q in s.moves)
  }

  /** On a consistent board a square is occupied exactly when it is logged. */
  lemma OccupiedIffLogged(s: BoardState, q: Vec)
    requires Consistent(s) && InBounds(q)
    ensures At(s.grid, q) != Empty <==> q in s.moves
  {
    if q in s.moves {
      var i :| 0 <= i < |s.moves| && s.moves[i] == q;
      PlyColors(i);
    }
  }

  /** Undone moves sit on empty squares. */
  lemma UndoneSquareEmpty(s: BoardState, j: int)
    requires Consistent(s) && 0 <= j < |s.redoStack|
    ensures At(s.grid, s.redoStack[j]) == Empty
  {
  }

  /** Playing on an empty square keeps the board consistent. */
  lemma ConsistentPutMayRedo(s: BoardState, p: Vec, clearRedo: bool)
    requires Consistent(s) && InBounds(p) && At(s.grid, p) == Empty
    requires clearRedo || p !in s.redoStack
    ensures Consistent(PutMayRedo(s, p, clearRedo))
  {
    var r := PutMayRedo(s, p, clearRedo);
    forall i | 0 <= i < |s.moves|
      ensures s.moves[i] != p
    {
      PlyColors(i);
    }
    forall i | 0 <= i < |r.moves|
      ensures At(r.grid, r.moves[i]) == ColorOfPly(i)
    {
    }
    forall q | InBounds(q) && At(r.grid, q) != Empty
      ensures q in r.moves
    {
      if q != p {
        assert q in s.moves;
      }
    }
  }

  lemma ConsistentPut(s: BoardState, p: Vec)
    requires Consistent(s) && InBounds(p) && At(s.grid, p) == Empty
    ensures Consistent(Put(s, p))
  {
    ConsistentPutMayRedo(s, p, true);
  }

  lemma ConsistentUndo(s: BoardState)
    requires Consistent(s)
    ensures Consistent(Undo(s))
  {
    if s.moves != [] {
      var r := Undo(s);
      var n := |s.moves|;
      var p := s.moves[n - 1];
      assert p !in s.redoStack;
      forall q | InBounds(q) && At(r.grid, q) != Empty
        ensures q in r.moves
      {
        var i :| 0 <= i < n && s.moves[i] == q;
        assert i != n - 1;
        assert r.moves[i] == q;
      }
    }
  }

  lemma ConsistentRedo(s: BoardState)
    requires Consistent(s) && s.redoStack != []
    ensures Consistent(Redo(s))
  {
    var m := |s.redoStack|;
    var p := s.redoStack[m - 1];
    var t := s.(redoStack := s.redoStack[..m - 1]);
    UndoneSquareEmpty(s, m - 1);
    assert p !in t.redoStack;
    ConsistentPutMayRedo(t, p, false);
  }

  /** Undo followed by redo gives back the very same board, log and stack. */
  lemma UndoThenRedo(s: BoardState)
    requires Consistent(s) && s.moves != []
    ensures Undo(s).redoStack != [] && Redo(Undo(s)) == s
  {
    var n := |s.moves|;
    var p := s.moves[n - 1];
    var u := Undo(s);
    assert u.redoStack[|u.redoStack| - 1] == p;
    assert u.redoStack[..|u.redoStack| - 1] == s.redoStack;
    var r := Redo(u);
    assert r.moves == s.moves;
    assert At(s.grid, p) == ColorOfPly(n - 1) == NextColor(u);
    GridExt(r.grid, s.grid);
  }

  /** Redo followed by undo gives back the very same board, log and stack. */
  lemma RedoThenUndo(s: BoardState)
    requires Consistent(s) && s.redoStack != []
    ensures Undo(Redo(s)) == s
  {
    var m := |s.redoStack|;
    var p := s.redoStack[m - 1];
    UndoneSquareEmpty(s, m - 1);
    var r := Redo(s);
    assert r.moves[|r.moves| - 1] == p;
    assert r.moves[..|r.moves| - 1] == s.moves;
    var u := Undo(r);
    assert u.redoStack == s.redoStack;
    GridExt(u.grid, s.grid);
  }

  /** The moves in play order followed by the undone ones in replay order. */
  function Timeline(s: BoardState): seq<Vec> {
    s.moves + Reversed(s.redoStack)
  }

  function Reversed(ps: seq<Vec>): (r: seq<Vec>)
    ensures |r| == |ps|
  {
    if ps == [] then [] else [ps[|ps| - 1]] + Reversed(ps[..|ps| - 1])
  }

  /** Undo and redo only move the boundary between played and undone moves
      within one fixed timeline. */
  lemma TimelineKept(s: BoardState)
    requires Valid(s)
    ensures Timeline(Undo(s)) == Timeline(s)
    ensures s.redoStack != [] ==> Timeline(Redo(s)) == Timeline(s)
  {
    TimelineUndo(s);
    if s.redoStack != [] {
      TimelineRedo(s);
    }
  }

  lemma TimelineUndo(s: BoardState)
    requires Valid(s)
    ensures Timeline(Undo(s)) == Timeline(s)
  {
    if s.moves != [] {
      var p := s.moves[|s.moves| - 1];
      var st := s.redoStack + [p];
      assert st[..|st| - 1] == s.redoStack;
      assert Reversed(st) == [p] + Reversed(s.redoStack);
      assert s.moves[..|s.moves| - 1] + [p] == s.moves;
    }
  }

  lemma TimelineRedo(s: BoardState)
    requires Valid(s) && s.redoStack != []
    ensures Timeline(Redo(s)) == Timeline(s)
  {
    var m := |s.redoStack|;
    assert Reversed(s.redoStack) == [s.redoStack[m - 1]] + Reversed(s.redoStack[..m - 1]);
  }

  /** After a put the new stone has the colour that was to play, and the
      colour to play next is its opponent. */
  lemma PutAlternates(s: BoardState, p: Vec)
    requires Valid(s) && InBounds(p)
    ensures At(Put(s, p).grid, p) == NextColor(s) != Empty
    ensures NextColor(Put(s, p)) == Opponent(At(Put(s, p).grid, p))
  {
    PlyColors(|s.moves|);
  }

  /** A non-empty sequence is its front followed by its last element. */
  lemma FrontLast(ms: seq<Vec>)
    requires ms != []
    ensures ms[..|ms| - 1] + [ms[|ms| - 1]] == ms
  {
  }

  /** Replaying one more move puts it on the replayed board. */
  lemma ReplayStep(ms: seq<Vec>, i: int)
    requires AllInBounds(ms) && 0 <= i < |ms|
    ensures AllInBounds(ms[..i]) && Replay(ms[..i + 1]) == Put(Replay(ms[..i]), ms[i])
  {
    assert ms[..i + 1][..i] == ms[..i];
  }

  /** Replaying moves logs exactly those moves and leaves no move to redo. */
  lemma {:induction false} ReplayLog(ms: seq<Vec>)
    requires AllInBounds(ms)
    ensures Replay(ms).moves == ms && Replay(ms).redoStack == []
  {
    if ms != [] {
      ReplayLog(ms[..|ms| - 1]);
      FrontLast(ms);
    }
  }

  /** Replaying distinct on-board moves gives a consistent board. */
  lemma {:induction false} ReplayConsistent(ms: seq<Vec>)
    requires AllInBounds(ms) && Distinct(ms)
    ensures Consistent(Replay(ms))
  {
    if ms != [] {
      var front := ms[..|ms| - 1];
      var p := ms[|ms| - 1];
      ReplayConsistent(front);
      ReplayLog(front);
      var s := Replay(front);
      assert p !in front;
      ConsistentPut(s, p);
      FrontLast(ms);
    }
  }
}
