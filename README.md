# Gomoku board and win detection

This project models the board engine of a Gomoku (five in a row) game,
`src/board.rs`. The board is 15 by 15, and Black always moves first.
The engine keeps three things:

- the cells of the board;
- the log of moves played;
- a redo stack of moves that were taken back.

A move puts the colour to play on a square and appends the square to the
log. Undo takes the last move off the board onto the redo stack. Redo plays
it again.

After every move the engine decides the game by scanning lines:

- every row;
- every column;
- both families of diagonals.

Each line is walked by a line iterator. The walk counts the current run of
stones of one colour, and the first run of five wins at once. The result
reports the five winning squares, latest first. A line without five is
"not finished" when it passes an empty square and a "draw" otherwise. The
line results are combined in a fixed order with the result type's `or`.
The first win found decides the game. Otherwise any open line keeps the
game going, and a full board without five is a draw.

The project has four modules.

- `Cells` (`cells.dfy`) holds the cell colours and `Opponent`. It also
  holds the game result with `Or` and `Over`, and the fold of `Or` over a
  sequence of results with its laws.
- `Lines` (`lines.dfy`) is the value-level reference. It covers:
  - the positions a line iterator visits, `LinePositions`;
  - the outcome of one line, `LineOutcome`, defined as the first window of
    five stones of one colour;
  - the exact order in which `result` scans its 88 lines, `ScanOrder`;
  - the outcome of the whole board, `BoardOutcome`.

  It proves what these mean on the board itself:
  - a line is won exactly when five stones of one colour lie on it
    consecutively;
  - the board is won exactly when five in a row lie somewhere on it;
  - the reported squares are the winning five;
  - a board without five is undecided exactly when some square is empty.
- `History` (`history.dfy`) holds the board state as a value (grid, log,
  redo stack) and the pure `Put`, `Undo`, `Redo` and `Replay`. Their laws
  are:
  - undo and redo are inverse;
  - the timeline of played and undone moves is kept;
  - colours alternate;
  - a consistency invariant holds as long as moves go to empty squares.
- `GomokuBoard` (`board.dfy`) holds two classes:
  - `LineIterator`, with a mutable position;
  - `Board`, with a 15 by 15 `array2` of cells and the log and redo stack as
    sequence fields.

  `CheckLine` and `Result` run the source's loops over the array. They are
  proved to compute `LineOutcome` and `BoardOutcome`. `Put`, `Undo`, `Redo`
  and `LoadFromString` are proved to move the board's state exactly as the
  functions of `History` do.

Positions are pairs of unbounded integers. The cast of a position to
`usize` in `last5` is written out as reduction modulo 2^64 (`AsUsize`),
which is what it does on a 64-bit target and the identity on squares of
the board. JSON decoding in `load_from_string` is not modelled. The method
receives the decoded move list, or `None` when decoding failed.

## Model

| member | source | states |
|---|---|---|
| Cells.Opponent | src/board.rs:28-34 | the opponent of a stone is a stone of the other colour; the opponent of an empty square is empty |
| Cells.OpponentInvolutive | src/board.rs:28-34 | taking the opponent twice gives back the original cell |
| Cells.GameResult.Or | src/board.rs:54-62 | a win on the left is kept; otherwise a win on the right is taken; between undecided results, not finished beats draw |
| Cells.GameResult.Over | src/board.rs:72-77 | the game is over exactly when the result is not "not finished" |
| Cells.FoldOr | src/board.rs:224-240 | combining results with `or` from Draw, as `result` does, gives Draw or one of the combined results |
| Cells.FoldOrUndecided | src/board.rs:224-240 | folding results without a win from Draw gives NotFinished exactly when some result is NotFinished, and Draw otherwise |
| Cells.FoldOrFirstDecisive | src/board.rs:224-240 | the fold yields the first decisive result when every earlier one is undecided |
| Cells.FoldOrDecisive | src/board.rs:224-240 | the fold is a win exactly when some folded result is a win |
| Lines.LinePositions | src/board.rs:88-100 | every position the iterator yields lies on the board |
| Lines.LinePositionsAt | src/board.rs:88-100 | the k-th yielded position is k steps of the direction from the start, and the step after the last one leaves the board |
| Lines.LineStep | src/board.rs:96-98 | each yielded position is one step on from the previous one, and the step after the last one is off the board |
| Lines.FirstFiveSpec | src/board.rs:183-209 | the window the scan stops at holds five stones of one colour, and no window before it does |
| Lines.FirstFiveIs | src/board.rs:183-209 | any window of five with none before it is the one the scan stops at (converse of FirstFiveSpec) |
| Lines.ScanOutcome | src/board.rs:179-216 | the reference result of a line's cells: a win exactly when five stones of one colour are consecutive in them, with five squares reported; otherwise NotFinished exactly when an empty square occurs |
| Lines.LineOutcome | src/board.rs:179-223 | the reference result of the line from a start square in a direction; a win reports five squares of the board |
| Lines.WinLineOnBoard | src/board.rs:104-116 | the reported five squares are the window's positions, latest first, unchanged by the usize cast since they are on the board |
| Lines.FiveRunAt | src/board.rs:183-209 | five stones of one colour along the board from a line position is the same as a window of five in the cells the iterator yields |
| Lines.LineWin | src/board.rs:179-216 | a won line has five stones of the winner's colour in a row along its direction; the result lists exactly those five squares, latest first; no such run starts earlier on the line |
| Lines.WinWindow | src/board.rs:104-116 | the reported window starting at index i is the five squares i+4, ..., i steps from the line's start |
| Lines.LineNoWin | src/board.rs:211-215 | a line without a win has no five in a row on it, and it is NotFinished exactly when it contains an empty square, Draw otherwise |
| Lines.FiveRunDecidesLine | src/board.rs:179-216 | a line that passes over five in a row along its own direction is won |
| Lines.ScanLine | src/board.rs:226-238 | every scanned line starts on the board and runs along a row, a column or a diagonal |
| Lines.ScanOrderDistinct | src/board.rs:226-238 | no line is scanned twice |
| Lines.ScannedFirstAt | src/board.rs:226-232 | pass n of the first loop scans the row line from (0,n), the column from (n,0) and both diagonals from (0,n) |
| Lines.ScannedSecondAt | src/board.rs:233-238 | pass n of the second loop scans the diagonal from (n,0) and the anti-diagonal from (n,14) |
| Lines.ScannedFirst | src/board.rs:226-232 | the four lines of each pass of the first loop are among the scanned lines |
| Lines.ScannedSecond | src/board.rs:233-238 | the two lines of each pass of the second loop are among the scanned lines |
| Lines.LineThrough | src/board.rs:224-240 | every square, in each of the four scan directions, lies on some scanned line, and every square from that line's start up to it is on the board |
| Lines.AxisLineThrough | src/board.rs:226-228 | every square lies on a scanned row and a scanned column |
| Lines.DiagonalLineThrough | src/board.rs:230-234 | every square lies on a scanned down-right diagonal |
| Lines.AntiDiagonalLineThrough | src/board.rs:231-237 | every square lies on a scanned anti-diagonal |
| Lines.BoardOutcome | src/board.rs:224-240 | the reference result of the whole board; a win reports five squares of the board |
| Lines.ScanResultsExist | src/board.rs:224-240 | there is a sequence holding the result of every scanned line in scan order |
| Lines.ScanResultsFold | src/board.rs:224-240 | folding those line results from Draw gives the board's result |
| Lines.DecisiveLineHasFive | src/board.rs:179-216 | a won scanned line means the board holds five in a row |
| Lines.BoardOutcomeDecisive | src/board.rs:224-240 | the board is won exactly when five stones of one colour lie in a row, column or diagonal |
| Lines.EmptySquareOpensLine | src/board.rs:224-240 | on a board without five, an empty square makes some scanned line NotFinished |
| Lines.OpenLineHasEmpty | src/board.rs:211-215 | a NotFinished line means the board has an empty square |
| Lines.BoardOutcomeUndecided | src/board.rs:224-240 | a board without five is NotFinished when it has an empty square and Draw when it is full |
| Lines.FirstDecisiveLine | src/board.rs:224-240 | a won board reports the result of the first won line in scan order |
| Lines.BoardWin | src/board.rs:224-240 | a won board has five of the winner's colour in a row along a scan direction, and the result lists exactly those five squares |
| History.PlyColors | src/board.rs:129-136 | the first move is Black, and colours alternate from move to move |
| History.NextColor | src/board.rs:129-136 | the colour to move is a stone, Black exactly after an even number of moves |
| History.EmptyGrid | src/board.rs:37-43 | the default board has every square empty |
| History.Initial | src/board.rs:37-43 | the default board, with no moves and nothing to redo, is well formed |
| History.Place | src/board.rs:151 | setting a square changes that square and no other |
| History.PutMayRedo | src/board.rs:150-159 | the colour to move goes to the square and no other square changes; the square is appended to the log; the redo stack is emptied exactly when asked |
| History.Put | src/board.rs:160-162 | the colour to move goes to the square and no other square changes; the square is logged last and nothing is left to redo |
| History.Undo | src/board.rs:163-168 | nothing changes on an empty log; otherwise the last logged square is emptied and moved from the log onto the redo stack, and no other square changes |
| History.Redo | src/board.rs:172-178 | the top of the redo stack is popped, logged and gets the colour to move; no other square changes |
| History.Replay | src/board.rs:241-250 | loading moves from the default board leaves a stone on every loaded square and every other square empty |
| History.OccupiedIffLogged | src/board.rs:150-168 | on a consistent board a square holds a stone exactly when it is in the move log |
| History.UndoneSquareEmpty | src/board.rs:163-168 | the squares of undone moves are empty |
| History.ConsistentPutMayRedo | src/board.rs:150-159 | playing on an empty square (not one waiting on the redo stack, unless that stack is cleared) keeps the board consistent |
| History.ConsistentPut | src/board.rs:160-162 | a put on an empty square keeps the board consistent |
| History.ConsistentUndo | src/board.rs:163-168 | undo keeps the board consistent |
| History.ConsistentRedo | src/board.rs:172-178 | redo keeps the board consistent |
| History.UndoThenRedo | src/board.rs:163-178 | redoing right after an undo restores the very same board, log and redo stack |
| History.RedoThenUndo | src/board.rs:163-178 | undoing right after a redo restores the very same board, log and redo stack |
| History.TimelineKept | src/board.rs:163-178 | undo and redo keep the sequence "played moves, then undone moves in replay order" |
| History.TimelineUndo | src/board.rs:163-168 | undo keeps the timeline of played and undone moves |
| History.TimelineRedo | src/board.rs:172-178 | redo keeps the timeline of played and undone moves |
| History.PutAlternates | src/board.rs:150-162 | a put places the colour to move, and the colour to move next is its opponent |
| History.ReplayStep | src/board.rs:245-247 | replaying one more move is a put of that move on the replayed board |
| History.ReplayLog | src/board.rs:241-250 | loading moves logs exactly those moves and leaves nothing to redo |
| History.ReplayConsistent | src/board.rs:241-250 | loading distinct on-board moves gives a consistent board |
| GomokuBoard.LineIterator.constructor | src/board.rs:80-84 | the iterator starts at the given position, direction and cells |
| GomokuBoard.LineIterator.Next | src/board.rs:88-100 | on the board it yields the cell at the position and steps on; off the board it yields nothing and stays |
| GomokuBoard.LineIterator.Last5 | src/board.rs:104-116 | five positions (their values are stated by Last5Behind) |
| GomokuBoard.Last5Behind | src/board.rs:104-116 | entry k of `last5` is the position k + 1 steps behind the iterator, cast to usize |
| GomokuBoard.RunEmpty | src/board.rs:185-188 | an empty cell clears the run and records an open square, keeping the scan's invariant |
| GomokuBoard.RunExtend | src/board.rs:189-194 | a stone continuing the run lengthens it; the fifth completes the first window of five on the line |
| GomokuBoard.RunRestart | src/board.rs:195-198 | a stone of the other colour starts a new run of one, keeping the invariant |
| GomokuBoard.ScannedAll | src/board.rs:211-215 | at the end of a line without five the result is NotFinished exactly when an empty square was met |
| GomokuBoard.ScanFrom | src/board.rs:179-216 | the run-length scan of `check_line` from any point: a win reports five squares; otherwise NotFinished exactly when an empty square was met before or occurs after that point |
| GomokuBoard.ScanFromOutcome | src/board.rs:179-216 | continuing the scan from any state that meets the invariant gives the line's reference result |
| GomokuBoard.CheckLine | src/board.rs:179-216 | the scan returns the reference result of the line from the iterator's start position |
| GomokuBoard.WinOutcome | src/board.rs:189-204 | stopping at the first window of five reports that window for the colour of its stones |
| GomokuBoard.BehindIsWindow | src/board.rs:191-202 | just after the fifth stone, the positions behind the iterator are that window of five, latest first |
| GomokuBoard.IdsStep | src/board.rs:139-141 | each insertion keeps "each logged square maps to its latest move number" for the moves seen so far |
| GomokuBoard.IdsOfDistinct | src/board.rs:137-143 | when no square is logged twice, each move maps to its own 1-based number |
| GomokuBoard.Board.constructor | src/board.rs:37-43 | a new board is empty, with no moves and nothing to redo |
| GomokuBoard.Board.CanUndo | src/board.rs:120-122 | true exactly when a move is logged |
| GomokuBoard.Board.CanRedo | src/board.rs:123-125 | true exactly when an undone move waits on the redo stack |
| GomokuBoard.Board.NextColor | src/board.rs:129-136 | the colour of the next ply, Black after an even number of moves |
| GomokuBoard.Board.HumanComes | src/board.rs:144-146 | true exactly when the player holding the colour to move is a person |
| GomokuBoard.Board.CellAt | src/board.rs:147-149 | the content of the square on the board's grid |
| GomokuBoard.Board.MoveToIdMap | src/board.rs:137-143 | the keys are exactly the logged squares; each maps to the 1-based number of its latest move; with no repeats, move k maps to k + 1 |
| GomokuBoard.Board.PutMayRedo | src/board.rs:150-159 | the state becomes History.PutMayRedo of the old state, and the returned result is the new board's result |
| GomokuBoard.Board.Put | src/board.rs:160-162 | the state becomes History.Put of the old state, and the new board's result is returned |
| GomokuBoard.Board.Undo | src/board.rs:163-168 | the state becomes History.Undo of the old state (unchanged when no move is logged) |
| GomokuBoard.Board.RedoStep | src/board.rs:169-171 | nothing exactly when there is nothing to redo; otherwise the square that a redo would append to the log |
| GomokuBoard.Board.Redo | src/board.rs:172-178 | the state becomes History.Redo of the old state, and the new board's result is returned |
| GomokuBoard.Board.Line | src/board.rs:217-223 | a new iterator at the given position and direction over this board's cells |
| GomokuBoard.Board.OrLine | src/board.rs:227-237 | one statement of the scan combines the result so far with the next line's result, in scan order |
| GomokuBoard.Board.Result | src/board.rs:224-240 | the two loops compute the board's reference result: a win exactly when five in a row lie on the board, else NotFinished or Draw by whether a square is empty |
| GomokuBoard.Board.LoadFromString | src/board.rs:241-250 | on a decoding error nothing changes; otherwise the board is the replay of the decoded moves from an empty board |

## Left out

- The `heat` field (`f32` per square) is not modelled. It is display data that the engine never reads, and floating point is out of scope.
- `append_game_to_saves` is not modelled. It only writes the move log with a timestamp to a file (file I/O and the clock).
- JSON decoding in `load_from_string` is not modelled. Decoding is a foreign library; the method takes the decoded list, or `None` for a decoding error.
- GomokuBoard.Board.LoadFromString requires the decoded moves to be on the board. The source panics on an out-of-range index in `put`.
- GomokuBoard.Board.Put, GomokuBoard.Board.PutMayRedo and GomokuBoard.Board.CellAt require the square to be on the board. The source panics on an out-of-range array index.
- GomokuBoard.Board.Redo requires a non-empty redo stack. The source panics otherwise.
- GomokuBoard.Board.RedoStep states the returned square through the redo it would perform, not as the top of the stack.
- GomokuBoard.LineIterator.Last5: its own contract states only the length; the positions it returns are stated by GomokuBoard.Last5Behind.
- GomokuBoard.CheckLine requires a unit step (each coordinate -1, 0 or 1, not both 0). `result` only uses unit steps. With direction (0,0) and an on-board start, the source yields the start cell again and again: on an empty square the loop never ends, and on a stone it reports a win listing that one square five times.
- GomokuBoard.LineIterator.Next does not model `i32` overflow of the iterator position. Starting positions are on the board and every walk stops one step after leaving it.
- The `moves()` accessor is not modelled separately, because the log is the field `Board.moves`.
- A put on an occupied square overwrites the stone, as in the source (`History.Place`). The consistency lemmas (`History.ConsistentPut`, `History.ReplayConsistent`) are stated only for moves onto empty squares, because the invariant does not hold otherwise.
- The 15x15 array is not aliased. `Board.Line` shares `cells` with the iterator, which is how the source borrows it; cloning a board is not modelled.
- The user interface and game loop (`src/ui.rs`, `src/main.rs`, `src/gamestate.rs`), `win_text` and the display of `PlayerInt` are not part of this model. `PlayerInt` appears only as the Human/AI choice used by `human_comes`.
