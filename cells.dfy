/** Cells, players and game results of the Gomoku board (src/board.rs, src/gamestate.rs). */
module Cells {

  /** The content of one board square. */
  datatype Cell = Empty | Black | White

  /** Who controls a colour: a person at the screen or the engine. */
  datatype PlayerInt = Human | AI

  datatype Option<T> = None | Some(value: T)

  /** The colour that plays against `c`; an empty square has no opponent. */
  function Opponent(c: Cell): (o: Cell)
    ensures c == Empty ==> o == Empty
    ensures c != Empty ==> o != Empty && o != c
  {
    match c
    case Black => White
    case White => Black
    case _ => Empty
  }

  lemma OpponentInvolutive(c: Cell)
    ensures Opponent(Opponent(c)) == c
  {
  }

  /** Outcome of a line or of the whole board; a win carries the five
      winning coordinates. */
  datatype GameResult =
    | NotFinished
    | BlackWon(line: seq<(int, int)>)
    | WhiteWon(line: seq<(int, int)>)
    | Draw
  {
    predicate Decisive() {
      BlackWon? || WhiteWon?
    }

    /** The colour that won, Empty when nobody did. */
    function Winner(): Cell {
      match this
      case BlackWon(_) => Black
      case WhiteWon(_) => White
      case _ => Empty
    }

    /** Combines two results: a decisive left operand sticks, Draw yields to
        anything, and NotFinished yields only to a decisive result. */
    function Or(res: GameResult): (r: GameResult)
      ensures Decisive() ==> r == this
      ensures !Decisive() && res.Decisive() ==> r == res
      ensures !Decisive() && !res.Decisive() ==>
                !r.Decisive() && (r == NotFinished <==> (this == NotFinished || res == NotFinished))
    {
      match (this, res)
      case (NotFinished, Draw) => NotFinished
      case (NotFinished, r) => r
      case (Draw, r) => r
      case (r, _) => r
    }

    /** Whether the game has ended. */
    function Over(): (b: bool)
      ensures b <==> this != NotFinished
    {
      match this
      case BlackWon(_) | WhiteWon(_) | Draw => true
      case _ => false
    }
  }

  /** Left fold of `Or` over `rs`, starting from Draw, in sequence order. */
  function FoldOr(rs: seq<GameResult>): (r: GameResult)
    ensures r == Draw || r in rs
  {
    if rs == [] then Draw else FoldOr(rs[..|rs| - 1]).Or(rs[|rs| - 1])
  }

  /** With no decisive operand, the fold is NotFinished exactly when some
      operand is, and Draw otherwise. */
  lemma {:induction false} FoldOrUndecided(rs: seq<GameResult>)
    requires forall i :: 0 <= i < |rs| ==> !rs[i].Decisive()
    ensures FoldOr(rs) == (if exists i :: 0 <= i < |rs| && rs[i] == NotFinished then NotFinished else Draw)
  {
    if rs != [] {
      var front := rs[..|rs| - 1];
      FoldOrUndecided(front);
      if exists i :: 0 <= i < |front| && front[i] == NotFinished {
        var i :| 0 <= i < |front| && front[i] == NotFinished;
        assert rs[i] == NotFinished;
      }
      if exists i :: 0 <= i < |rs| && rs[i] == NotFinished {
        var i :| 0 <= i < |rs| && rs[i] == NotFinished;
        if i < |front| {
          assert front[i] == NotFinished;
        }
      }
    }
  }

  /** The first decisive operand is the value of the whole fold. */
  lemma {:induction false} FoldOrFirstDecisive(rs: seq<GameResult>, i: int)
    requires 0 <= i < |rs| && rs[i].Decisive()
    requires forall k :: 0 <= k < i ==> !rs[k].Decisive()
    ensures FoldOr(rs) == rs[i]
  {
    var front := rs[..|rs| - 1];
    if i == |rs| - 1 {
      FoldOrUndecided(front);
    } else {
      FoldOrFirstDecisive(front, i);
    }
  }

  /** The fold is decisive exactly when some operand is. */
  lemma FoldOrDecisive(rs: seq<GameResult>)
    ensures FoldOr(rs).Decisive() <==> exists i :: 0 <= i < |rs| && rs[i].Decisive()
  {
    if exists i :: 0 <= i < |rs| && rs[i].Decisive() {
      var i := FirstDecisive(rs);
      FoldOrFirstDecisive(rs, i);
    } else {
      FoldOrUndecided(rs);
    }
  }

  /** Index of the first decisive element. */
  lemma FirstDecisive(rs: seq<GameResult>) returns (i: int)
    requires exists i :: 0 <= i < |rs| && rs[i].Decisive()
    ensures 0 <= i < |rs| && rs[i].Decisive()
    ensures forall k :: 0 <= k < i ==> !rs[k].Decisive()
  {
    i := 0;
    while !rs[i].Decisive()
      invariant 0 <= i < |rs|
      invariant forall k :: 0 <= k < i ==> !rs[k].Decisive()
      invariant exists j :: i <= j < |rs| && rs[j].Decisive()
      decreases |rs| - i
    {
      i := i + 1;
    }
  }
}
