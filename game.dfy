/** The noughts-and-crosses game logic: a 3x3 board of spots, a state that
    pairs a board with the player entitled to move, the move operation and
    the winner detector.

    The source tags a state with its mover at the type level only; here the
    tag is a runtime field, so that the alternation the type system enforces
    becomes a property proved about `Next`. */
module Game {

  /** A player's mark. The type-level tags `PlayerX`/`PlayerO` and the
      runtime enum `Player` are both represented by this one type. */
  datatype Player = X | O

  /** One cell of the board: empty, or marked by a player. */
  datatype Spot = Occupied(player: Player) | Empty

  /** The only recoverable error of a move. */
  datatype GameError = SpotTaken

  datatype Result<T> = Ok(value: T) | Err(error: GameError)

  datatype Option<T> = None | Some(value: T)

  /** A row or column index of the board. */
  type Index = i: nat | i < 3

  /** A cell address, (row, column). */
  type Cell = (Index, Index)

  predicate IsGrid(rows: seq<seq<Spot>>)
  {
    |rows| == 3 && forall r :: 0 <= r < 3 ==> |rows[r]| == 3
  }

  /** A board is a 3x3 grid held by value: every state owns its own copy. */
  type Board = rows: seq<seq<Spot>> | IsGrid(rows)
    witness [[Empty, Empty, Empty], [Empty, Empty, Empty], [Empty, Empty, Empty]]

  const EmptyBoard: Board := [[Empty, Empty, Empty], [Empty, Empty, Empty], [Empty, Empty, Empty]]

  /** A board with its mover: the player whose mark the next move places. */
  datatype State = State(board: Board, mover: Player)

  /** The runtime union of an O-to-move state (Left) and an X-to-move
      state (Right). */
  datatype Either = Left(left: State) | Right(right: State)

  // ---------------------------------------------------------------------------
  // Players and spots

  /** The opponent of `p`: the type-level function that swaps the tags. */
  function NextPlayer(p: Player): (q: Player)
    ensures q != p
  {
    match p
    case X => O
    case O => X
  }

  lemma NextPlayerInvolutive(p: Player)
    ensures NextPlayer(NextPlayer(p)) == p
    ensures NextPlayer(X) == O && NextPlayer(O) == X
  {
  }

  /** The spot a player leaves behind: never `Empty`, and it names `p`. */
  function Mark(p: Player): (s: Spot)
    ensures s != Empty && s.player == p
  {
    Occupied(p)
  }

  // ---------------------------------------------------------------------------
  // Board cells and counting

  /** Whether `pos` addresses a cell; any other position makes a move panic. */
  predicate InRange(pos: (nat, nat))
  {
    pos.0 <= 2 && pos.1 <= 2
  }

  /** The nine cells in row-major order. */
  function Cells(b: Board): (cells: seq<Spot>)
    ensures |cells| == 9
    ensures forall r: Index, c: Index :: cells[3 * r + c] == b[r][c]
  {
    var cells := b[0] + b[1] + b[2];
    assert forall r: Index, c: Index :: cells[3 * r + c] == b[r][c] by {
      forall r: Index, c: Index ensures cells[3 * r + c] == b[r][c] {
        if r == 0 {
        } else if r == 1 {
        } else {
        }
      }
    }
    cells
  }

  /** The number of cells of `cells` equal to `v`. */
  function Count(cells: seq<Spot>, v: Spot): (n: nat)
    ensures n <= |cells|
  {
    if cells == [] then 0
    else (if cells[0] == v then 1 else 0) + Count(cells[1..], v)
  }

  /** The number of cells of the board holding `v`. */
  function CountOf(b: Board, v: Spot): nat
  {
    Count(Cells(b), v)
  }

  /** Overwriting one position changes each count by at most the old and
      the new value of that position. */
  lemma {:induction false} CountUpdate(cells: seq<Spot>, i: nat, w: Spot, v: Spot)
    requires i < |cells|
    ensures Count(cells[i := w], v)
         == Count(cells, v) - (if cells[i] == v then 1 else 0) + (if w == v then 1 else 0)
  {
    if i == 0 {
      assert cells[i := w][1..] == cells[1..];
    } else {
      assert cells[i := w][1..] == cells[1..][i - 1 := w];
      CountUpdate(cells[1..], i - 1, w, v);
    }
  }

  /** In a sequence holding only `u`, every cell counts for `u` and none
      for any other value. */
  lemma {:induction false} CountUniform(cells: seq<Spot>, u: Spot, v: Spot)
    requires forall k :: 0 <= k < |cells| ==> cells[k] == u
    ensures Count(cells, v) == if v == u then |cells| else 0
  {
    if cells != [] {
      CountUniform(cells[1..], u, v);
    }
  }

  /** Every cell is empty, an O or an X. */
  lemma {:induction false} CountPartition(cells: seq<Spot>)
    ensures Count(cells, Empty) + Count(cells, Occupied(O)) + Count(cells, Occupied(X)) == |cells|
  {
    if cells != [] {
      CountPartition(cells[1..]);
      match cells[0]
      case Empty =>
      case Occupied(p) => assert p == O || p == X;
    }
  }

  /** The board with cell `pos` overwritten by `v`. */
  function Put(b: Board, pos: Cell, v: Spot): (r: Board)
    ensures r[pos.0][pos.1] == v
    ensures forall i: Index, j: Index :: (i, j) != pos ==> r[i][j] == b[i][j]
  {
    b[pos.0 := b[pos.0][pos.1 := v]]
  }

  /** Boards are equal when they agree cell by cell. */
  lemma BoardsEqual(a: Board, b: Board)
    requires forall i: Index, j: Index :: a[i][j] == b[i][j]
    ensures a == b
  {
    forall i: Index ensures a[i] == b[i] {
      assert forall j: Index :: a[i][j] == b[i][j];
    }
  }

  lemma CellsPut(b: Board, pos: Cell, v: Spot)
    ensures Cells(Put(b, pos, v)) == Cells(b)[3 * pos.0 + pos.1 := v]
  {
    var lhs, rhs := Cells(Put(b, pos, v)), Cells(b)[3 * pos.0 + pos.1 := v];
    forall k | 0 <= k < 9 ensures lhs[k] == rhs[k] {
      var r: Index, c: Index := k / 3, k % 3;
      assert k == 3 * r + c;
    }
  }

  /** Marking an empty cell with `v` moves one cell from the empty count
      to the count of `v` and leaves every other count alone. */
  lemma PutCounts(b: Board, pos: Cell, v: Spot, w: Spot)
    requires b[pos.0][pos.1] == Empty && v != Empty
    ensures CountOf(Put(b, pos, v), Empty) == CountOf(b, Empty) - 1
    ensures w != Empty ==> CountOf(Put(b, pos, v), w) == CountOf(b, w) + (if w == v then 1 else 0)
  {
    CellsPut(b, pos, v);
    CountUpdate(Cells(b), 3 * pos.0 + pos.1, v, Empty);
    CountUpdate(Cells(b), 3 * pos.0 + pos.1, v, w);
  }

  // ---------------------------------------------------------------------------
  // States and moves

  /** The initial state: O to move on an all-empty board. */
  function Default(): (s: State)
    ensures s.mover == O
    ensures forall r: Index, c: Index :: s.board[r][c] == Empty
  {
    State(EmptyBoard, O)
  }

  lemma DefaultCounts()
    ensures CountOf(Default().board, Empty) == 9
    ensures CountOf(Default().board, Occupied(O)) == 0
    ensures CountOf(Default().board, Occupied(X)) == 0
  {
    var cells := Cells(Default().board);
    forall k | 0 <= k < 9 ensures cells[k] == Empty {
      var r: Index, c: Index := k / 3, k % 3;
      assert k == 3 * r + c;
    }
    CountUniform(cells, Empty, Empty);
    CountUniform(cells, Empty, Occupied(O));
    CountUniform(cells, Empty, Occupied(X));
  }

  /** Places `mover`'s mark at `pos` on a copy of `board`. A position off
      the board is a caller error (the source panics), hence the requires. */
  function UpdateBoard(board: Board, mover: Player, pos: (nat, nat)): (r: Result<Board>)
    requires InRange(pos)
    ensures r.Err? <==> board[pos.0][pos.1] != Empty
    ensures r.Err? ==> r.error == SpotTaken
    ensures r.Ok? ==> r.value[pos.0][pos.1] == Mark(mover)
    ensures r.Ok? ==> forall i: Index, j: Index :: (i, j) != pos ==> r.value[i][j] == board[i][j]
  {
    var cell: Cell := (pos.0, pos.1);
    if board[cell.0][cell.1] != Empty then
      Err(SpotTaken)
    else
      Ok(Put(board, cell, Mark(mover)))
  }

  /** A successful update fills exactly one empty cell. */
  lemma UpdateBoardFillsOneCell(board: Board, mover: Player, pos: (nat, nat))
    requires InRange(pos) && UpdateBoard(board, mover, pos).Ok?
    ensures CountOf(UpdateBoard(board, mover, pos).value, Empty) == CountOf(board, Empty) - 1
  {
    PutCounts(board, (pos.0, pos.1), Mark(mover), Empty);
  }

  /** The move of the state's mover at `pos`: on success the result is
      tagged with the other player; an occupied target fails with SpotTaken. */
  function Next(s: State, pos: (nat, nat)): (r: Result<State>)
    requires InRange(pos)
    ensures r.Err? <==> s.board[pos.0][pos.1] != Empty
    ensures r.Err? ==> r.error == SpotTaken
    ensures r.Ok? ==> r.value.mover == NextPlayer(s.mover) && r.value.mover != s.mover
    ensures r.Ok? ==> r.value.board[pos.0][pos.1] == Mark(s.mover)
    ensures r.Ok? ==> forall i: Index, j: Index :: (i, j) != pos ==> r.value.board[i][j] == s.board[i][j]
  {
    match UpdateBoard(s.board, s.mover, pos)
    case Err(e) => Err(e)
    case Ok(b) => Ok(State(b, NextPlayer(s.mover)))
  }

  /** A successful move fills exactly one empty cell. */
  lemma NextFillsOneCell(s: State, pos: (nat, nat))
    requires InRange(pos) && Next(s, pos).Ok?
    ensures CountOf(Next(s, pos).value.board, Empty) == CountOf(s.board, Empty) - 1
  {
    UpdateBoardFillsOneCell(s.board, s.mover, pos);
  }

  /** Wraps a state in the runtime union: O-to-move goes Left, X-to-move
      goes Right. */
  function Into(s: State): (e: Either)
    ensures e.Left? <==> s.mover == O
    ensures e.Right? <==> s.mover == X
    ensures WellTagged(e)
    ensures Inner(e) == s
  {
    match s.mover
    case O => Left(s)
    case X => Right(s)
  }

  /** The state inside either case of the union. */
  function Inner(e: Either): (s: State)
    ensures e == Left(s) || e == Right(s)
  {
    match e
    case Left(s) => s
    case Right(s) => s
  }

  /** A union value whose case agrees with its state's mover, as the
      source's types guarantee. */
  predicate WellTagged(e: Either)
  {
    match e
    case Left(s) => s.mover == O
    case Right(s) => s.mover == X
  }

  lemma IntoInner(e: Either)
    requires WellTagged(e)
    ensures Into(Inner(e)) == e
  {
  }

  // ---------------------------------------------------------------------------
  // Turn alternation

  /** The marks on the board match the mover: with O to move both players
      have placed the same number of marks, with X to move O is one ahead. */
  predicate TurnBalanced(s: State)
  {
    var os, xs := CountOf(s.board, Occupied(O)), CountOf(s.board, Occupied(X));
    if s.mover == O then os == xs else os == xs + 1
  }

  lemma DefaultBalanced()
    ensures TurnBalanced(Default())
  {
    DefaultCounts();
  }

  lemma NextPreservesBalance(s: State, pos: (nat, nat))
    requires InRange(pos) && TurnBalanced(s) && Next(s, pos).Ok?
    ensures TurnBalanced(Next(s, pos).value)
  {
    var cell: Cell := (pos.0, pos.1);
    PutCounts(s.board, cell, Mark(s.mover), Occupied(O));
    PutCounts(s.board, cell, Mark(s.mover), Occupied(X));
  }

  /** In a balanced state the mover is read off the number of empty cells:
      O moves exactly when an odd number of cells is empty. */
  lemma BalancedMoverParity(s: State)
    requires TurnBalanced(s)
    ensures s.mover == O <==> CountOf(s.board, Empty) % 2 == 1
  {
    CountPartition(Cells(s.board));
  }

  /** A run of moves chained with `?`: every move must succeed, and the
      first SpotTaken ends the run. */
  function Play(s: State, moves: seq<(nat, nat)>): Result<State>
    requires forall i :: 0 <= i < |moves| ==> InRange(moves[i])
    decreases |moves|
  {
    if moves == [] then Ok(s)
    else
      match Next(s, moves[0])
      case Err(e) => Err(e)
      case Ok(t) => Play(t, moves[1..])
  }

  /** A run of moves that succeeds starts with a successful move and
      continues from its result. */
  lemma PlayStep(s: State, moves: seq<(nat, nat)>)
    requires forall i :: 0 <= i < |moves| ==> InRange(moves[i])
    requires moves != [] && Play(s, moves).Ok?
    ensures Next(s, moves[0]).Ok?
    ensures Play(s, moves) == Play(Next(s, moves[0]).value, moves[1..])
  {
  }

  /** The mover after `n` turns starting with `p`. */
  function Swapped(p: Player, n: nat): Player
    decreases n
  {
    if n == 0 then p else Swapped(NextPlayer(p), n - 1)
  }

  /** After an even number of turns the first mover is to move again,
      after an odd number the other player is. */
  lemma {:induction false} SwappedParity(p: Player, n: nat)
    ensures Swapped(p, n) == if n % 2 == 0 then p else NextPlayer(p)
    decreases n
  {
    if n > 0 {
      SwappedParity(NextPlayer(p), n - 1);
      NextPlayerInvolutive(p);
    }
  }

  /** After n successful moves the mover has been swapped n times. */
  lemma {:induction false} PlaySwapsMover(s: State, moves: seq<(nat, nat)>)
    requires forall i :: 0 <= i < |moves| ==> InRange(moves[i])
    requires Play(s, moves).Ok?
    ensures Play(s, moves).value.mover == Swapped(s.mover, |moves|)
    decreases |moves|
  {
    if moves != [] {
      PlayStep(s, moves);
      var t, rest := Next(s, moves[0]).value, moves[1..];
      PlaySwapsMover(t, rest);
      assert Swapped(s.mover, |moves|) == Swapped(t.mover, |rest|);
    }
  }

  /** After n successful moves n empty cells have been filled. */
  lemma {:induction false} PlayFillsCells(s: State, moves: seq<(nat, nat)>)
    requires forall i :: 0 <= i < |moves| ==> InRange(moves[i])
    requires Play(s, moves).Ok?
    ensures CountOf(Play(s, moves).value.board, Empty) == CountOf(s.board, Empty) - |moves|
    decreases |moves|
  {
    if moves != [] {
      PlayStep(s, moves);
      var t, rest := Next(s, moves[0]).value, moves[1..];
      NextFillsOneCell(s, moves[0]);
      PlayFillsCells(t, rest);
    }
  }

  /** Successful moves keep the balance between the players' marks. */
  lemma {:induction false} PlayKeepsBalance(s: State, moves: seq<(nat, nat)>)
    requires forall i :: 0 <= i < |moves| ==> InRange(moves[i])
    requires Play(s, moves).Ok? && TurnBalanced(s)
    ensures TurnBalanced(Play(s, moves).value)
    decreases |moves|
  {
    if moves != [] {
      PlayStep(s, moves);
      var t, rest := Next(s, moves[0]).value, moves[1..];
      NextPreservesBalance(s, moves[0]);
      PlayKeepsBalance(t, rest);
    }
  }

  /** From the initial state, after n successful moves the mover is O
      exactly when n is even, and 9 - n cells remain empty. */
  lemma PlayFromDefault(moves: seq<(nat, nat)>)
    requires forall i :: 0 <= i < |moves| ==> InRange(moves[i])
    requires Play(Default(), moves).Ok?
    ensures Play(Default(), moves).value.mover == O <==> |moves| % 2 == 0
    ensures CountOf(Play(Default(), moves).value.board, Empty) == 9 - |moves|
    ensures TurnBalanced(Play(Default(), moves).value)
  {
    DefaultCounts();
    DefaultBalanced();
    PlaySwapsMover(Default(), moves);
    SwappedParity(O, |moves|);
    PlayFillsCells(Default(), moves);
    PlayKeepsBalance(Default(), moves);
  }

  /** A marked cell is never changed by a later run of moves. */
  lemma {:induction false} PlayKeepsMarks(s: State, moves: seq<(nat, nat)>, cell: Cell)
    requires forall i :: 0 <= i < |moves| ==> InRange(moves[i])
    requires Play(s, moves).Ok? && s.board[cell.0][cell.1] != Empty
    ensures Play(s, moves).value.board[cell.0][cell.1] == s.board[cell.0][cell.1]
    decreases |moves|
  {
    if moves != [] {
      var t := Next(s, moves[0]).value;
      assert t.board[cell.0][cell.1] == s.board[cell.0][cell.1];
      PlayKeepsMarks(t, moves[1..], cell);
    }
  }

  // ---------------------------------------------------------------------------
  // Winner detection, as written

  /** Three cells; the board has eight of them that win. */
  datatype Line = Line(a: Cell, b: Cell, c: Cell)

  /** The eight lines in the order they are examined: rows top to bottom,
      columns left to right, then the two diagonals. */
  const Lines: seq<Line> := [
    Line((0, 0), (0, 1), (0, 2)),
    Line((1, 0), (1, 1), (1, 2)),
    Line((2, 0), (2, 1), (2, 2)),
    Line((0, 0), (1, 0), (2, 0)),
    Line((0, 1), (1, 1), (2, 1)),
    Line((0, 2), (1, 2), (2, 2)),
    Line((0, 0), (1, 1), (2, 2)),
    Line((0, 2), (1, 1), (2, 0))
  ]

  function SpotAt(b: Board, cell: Cell): Spot
  {
    b[cell.0][cell.1]
  }

  /** The three cells of `l` hold the same spot, possibly `Empty`. */
  predicate Uniform(b: Board, l: Line)
  {
    SpotAt(b, l.a) == SpotAt(b, l.b) && SpotAt(b, l.b) == SpotAt(b, l.c)
  }

  /** The three cells of `l` are all marked by `p`. */
  predicate Owns(b: Board, l: Line, p: Player)
  {
    SpotAt(b, l.a) == Occupied(p) && SpotAt(b, l.b) == Occupied(p) && SpotAt(b, l.c) == Occupied(p)
  }

  /** One step of the fold: a result once found is kept; otherwise a
      uniform line yields its spot, even when that spot is `Empty`. */
  function FoldStep(b: Board, current: Option<Spot>, l: Line): (r: Option<Spot>)
    ensures current.Some? ==> r == current
    ensures current.None? ==> (r.Some? <==> Uniform(b, l))
    ensures current.None? && r.Some? ==>
              SpotAt(b, l.a) == r.value && SpotAt(b, l.b) == r.value && SpotAt(b, l.c) == r.value
  {
    if current.Some? then current
    else if Uniform(b, l) then Some(SpotAt(b, l.a))
    else None
  }

  /** The left fold of `FoldStep` over `lines`. It ends with no result
      only when it started with none and no line is uniform. */
  function FoldLines(b: Board, lines: seq<Line>, current: Option<Spot>): (r: Option<Spot>)
    ensures r.None? ==> current.None? && forall k :: 0 <= k < |lines| ==> !Uniform(b, lines[k])
    decreases |lines|
  {
    if lines == [] then current
    else FoldLines(b, lines[1..], FoldStep(b, current, lines[0]))
  }

  /** The fold's result mapped to a player: the first uniform line decides,
      and an `Empty` line decides "no winner". */
  function CheckWinner(b: Board): Option<Player>
  {
    match FoldLines(b, Lines, None)
    case Some(Occupied(p)) => Some(p)
    case _ => None
  }

  /** The line table holds the eight winning lines of the board: the three
      rows, the three columns and the two diagonals. */
  lemma LinesAreWinningLines()
    ensures |Lines| == 8
    ensures forall r: Index :: Line((r, 0), (r, 1), (r, 2)) in Lines
    ensures forall c: Index :: Line((0, c), (1, c), (2, c)) in Lines
    ensures Line((0, 0), (1, 1), (2, 2)) in Lines && Line((0, 2), (1, 1), (2, 0)) in Lines
  {
  }

  /** `k` is the first uniform line of `lines`. */
  ghost predicate FirstUniform(b: Board, lines: seq<Line>, k: nat)
  {
    k < |lines| && Uniform(b, lines[k]) && forall j :: 0 <= j < k ==> !Uniform(b, lines[j])
  }

  lemma {:induction false} FoldKeeps(b: Board, lines: seq<Line>, v: Spot)
    ensures FoldLines(b, lines, Some(v)) == Some(v)
    decreases |lines|
  {
    if lines != [] {
      FoldKeeps(b, lines[1..], v);
    }
  }

  /** The fold returns the spot of the first uniform line. */
  lemma {:induction false} FoldFindsFirst(b: Board, lines: seq<Line>, k: nat)
    requires FirstUniform(b, lines, k)
    ensures FoldLines(b, lines, None) == Some(SpotAt(b, lines[k].a))
    decreases |lines|
  {
    if k == 0 {
      FoldKeeps(b, lines[1..], SpotAt(b, lines[0].a));
    } else {
      assert !Uniform(b, lines[0]);
      assert FirstUniform(b, lines[1..], k - 1) by {
        forall j | 0 <= j < k - 1 ensures !Uniform(b, lines[1..][j]) {
          assert lines[1..][j] == lines[j + 1];
        }
      }
      FoldFindsFirst(b, lines[1..], k - 1);
    }
  }

  /** Without a uniform line the fold returns None. */
  lemma {:induction false} FoldNone(b: Board, lines: seq<Line>)
    requires forall k :: 0 <= k < |lines| ==> !Uniform(b, lines[k])
    ensures FoldLines(b, lines, None) == None
    decreases |lines|
  {
    if lines != [] {
      assert !Uniform(b, lines[0]);
      FoldNone(b, lines[1..]);
    }
  }

  /** A result of the fold is the spot of some uniform line that is the
      first uniform one. */
  lemma {:induction false} FoldSome(b: Board, lines: seq<Line>, v: Spot)
    requires FoldLines(b, lines, None) == Some(v)
    ensures exists k: nat :: FirstUniform(b, lines, k) && SpotAt(b, lines[k].a) == v
    decreases |lines|
  {
    if Uniform(b, lines[0]) {
      FoldKeeps(b, lines[1..], SpotAt(b, lines[0].a));
      assert FirstUniform(b, lines, 0);
    } else {
      FoldSome(b, lines[1..], v);
      var k: nat :| FirstUniform(b, lines[1..], k) && SpotAt(b, lines[1..][k].a) == v;
      assert lines[1..][k] == lines[k + 1];
      forall j | 0 <= j < k + 1 ensures !Uniform(b, lines[j]) {
        if j > 0 {
          assert lines[1..][j - 1] == lines[j];
        }
      }
      assert FirstUniform(b, lines, k + 1);
    }
  }

  /** The winner is reported only when a listed line holds three marks of
      that player. */
  lemma WinnerOwnsALine(b: Board, p: Player)
    requires CheckWinner(b) == Some(p)
    ensures exists k :: 0 <= k < |Lines| && Owns(b, Lines[k], p)
  {
    FoldSome(b, Lines, Occupied(p));
    var k: nat :| FirstUniform(b, Lines, k) && SpotAt(b, Lines[k].a) == Occupied(p);
    assert Owns(b, Lines[k], p);
  }

  /** The result is decided by the first uniform line in the listed order:
      the player who owns it, or no winner when that line is empty. */
  lemma WinnerIsFirstUniformLine(b: Board, k: nat)
    requires FirstUniform(b, Lines, k)
    ensures SpotAt(b, Lines[k].a) == Empty ==> CheckWinner(b) == None
    ensures SpotAt(b, Lines[k].a) != Empty ==> CheckWinner(b) == Some(SpotAt(b, Lines[k].a).player)
  {
    FoldFindsFirst(b, Lines, k);
  }

  /** Without any uniform line there is no winner. */
  lemma NoUniformNoWinner(b: Board)
    requires forall k :: 0 <= k < |Lines| ==> !Uniform(b, Lines[k])
    ensures CheckWinner(b) == None
  {
    FoldNone(b, Lines);
  }

  /** The all-empty board has no winner: its first row is uniform and empty. */
  lemma EmptyBoardNoWinner()
    ensures CheckWinner(EmptyBoard) == None
  {
    assert FirstUniform(EmptyBoard, Lines, 0);
    FoldFindsFirst(EmptyBoard, Lines, 0);
  }

  /** An empty line listed before every other uniform line masks any later
      completed line. */
  lemma EmptyLineMasks(b: Board, k: nat, m: nat, p: Player)
    requires FirstUniform(b, Lines, k) && SpotAt(b, Lines[k].a) == Empty
    requires k < m < |Lines| && Owns(b, Lines[m], p)
    ensures CheckWinner(b) == None
  {
    FoldFindsFirst(b, Lines, k);
  }

  // ---------------------------------------------------------------------------
  // Winner detection, as intended: only a line of three marks counts

  /** The three cells of `l` hold the same mark. */
  predicate Completed(b: Board, l: Line)
  {
    Uniform(b, l) && SpotAt(b, l.a) != Empty
  }

  /** The fold that skips uniform empty lines. */
  function FoldCompleted(b: Board, lines: seq<Line>): Option<Player>
    decreases |lines|
  {
    if lines == [] then None
    else if Completed(b, lines[0]) then Some(SpotAt(b, lines[0].a).player)
    else FoldCompleted(b, lines[1..])
  }

  /** Reports the owner of the first completed line, in the listed order. */
  function CheckWinnerFixed(b: Board): Option<Player>
  {
    FoldCompleted(b, Lines)
  }

  /** When no line before `k` is completed and `p` owns line `k`, the
      corrected fold reports `p`. */
  lemma {:induction false} FoldCompletedFirst(b: Board, lines: seq<Line>, k: nat, p: Player)
    requires k < |lines| && Owns(b, lines[k], p)
    requires forall j :: 0 <= j < k ==> !Completed(b, lines[j])
    ensures FoldCompleted(b, lines) == Some(p)
    decreases |lines|
  {
    if k > 0 {
      assert !Completed(b, lines[0]);
      forall j | 0 <= j < k - 1 ensures !Completed(b, lines[1..][j]) {
        assert lines[1..][j] == lines[j + 1];
      }
      FoldCompletedFirst(b, lines[1..], k - 1, p);
    }
  }

  lemma {:induction false} FoldCompletedSome(b: Board, lines: seq<Line>, p: Player)
    requires FoldCompleted(b, lines) == Some(p)
    ensures exists k :: 0 <= k < |lines| && Owns(b, lines[k], p)
    decreases |lines|
  {
    if Completed(b, lines[0]) {
      assert Owns(b, lines[0], p);
    } else {
      FoldCompletedSome(b, lines[1..], p);
      var k :| 0 <= k < |lines[1..]| && Owns(b, lines[1..][k], p);
      assert lines[1..][k] == lines[k + 1];
    }
  }

  /** The corrected detector reports p only for a line of three p marks,
      and reports the owner of the first completed line whatever else is on
      the board. */
  lemma FixedWinnerCorrect(b: Board, p: Player)
    ensures CheckWinnerFixed(b) == Some(p) ==> exists k :: 0 <= k < |Lines| && Owns(b, Lines[k], p)
    ensures (exists k :: 0 <= k < |Lines| && Owns(b, Lines[k], p)
                        && forall j :: 0 <= j < k ==> !Completed(b, Lines[j]))
            ==> CheckWinnerFixed(b) == Some(p)
  {
    if CheckWinnerFixed(b) == Some(p) {
      FoldCompletedSome(b, Lines, p);
    }
    if k :| 0 <= k < |Lines| && Owns(b, Lines[k], p) && forall j :: 0 <= j < k ==> !Completed(b, Lines[j]) {
      FoldCompletedFirst(b, Lines, k, p);
    }
  }

  /** Without any completed line the corrected detector reports no winner. */
  lemma {:induction false} FixedNoCompletedNoWinner(b: Board, lines: seq<Line>)
    requires forall k :: 0 <= k < |lines| ==> !Completed(b, lines[k])
    ensures FoldCompleted(b, lines) == None
    decreases |lines|
  {
    if lines != [] {
      assert !Completed(b, lines[0]);
      FixedNoCompletedNoWinner(b, lines[1..]);
    }
  }

  // ---------------------------------------------------------------------------
  // A reachable board on which the two detectors disagree

  /** O has filled the middle row while X holds two cells of the bottom row
      and the top row is still empty. */
  const MiddleRowBoard: Board := [
    [Empty, Empty, Empty],
    [Occupied(O), Occupied(O), Occupied(O)],
    [Occupied(X), Occupied(X), Empty]
  ]

  /** The states after each of the moves O:(1,0), X:(2,0), O:(1,1), X:(2,1). */
  const AfterOne: State := State([[Empty, Empty, Empty], [Occupied(O), Empty, Empty], [Empty, Empty, Empty]], X)
  const AfterTwo: State := State([[Empty, Empty, Empty], [Occupied(O), Empty, Empty], [Occupied(X), Empty, Empty]], O)
  const AfterThree: State := State([[Empty, Empty, Empty], [Occupied(O), Occupied(O), Empty], [Occupied(X), Empty, Empty]], X)
  const AfterFour: State := State([[Empty, Empty, Empty], [Occupied(O), Occupied(O), Empty], [Occupied(X), Occupied(X), Empty]], O)

  lemma PlayFromFour()
    ensures Play(AfterFour, [(1, 2)]) == Ok(State(MiddleRowBoard, X))
  {
    NextTo(AfterFour, (1, 2), State(MiddleRowBoard, X));
  }

  lemma PlayFromThree()
    ensures Play(AfterThree, [(2, 1), (1, 2)]) == Ok(State(MiddleRowBoard, X))
  {
    NextTo(AfterThree, (2, 1), AfterFour);
    PlayFromFour();
    assert [(2, 1), (1, 2)][1..] == [(1, 2)];
  }

  lemma PlayFromTwo()
    ensures Play(AfterTwo, [(1, 1), (2, 1), (1, 2)]) == Ok(State(MiddleRowBoard, X))
  {
    NextTo(AfterTwo, (1, 1), AfterThree);
    PlayFromThree();
    assert [(1, 1), (2, 1), (1, 2)][1..] == [(2, 1), (1, 2)];
  }

  lemma PlayFromOne()
    ensures Play(AfterOne, [(2, 0), (1, 1), (2, 1), (1, 2)]) == Ok(State(MiddleRowBoard, X))
  {
    NextTo(AfterOne, (2, 0), AfterTwo);
    PlayFromTwo();
    assert [(2, 0), (1, 1), (2, 1), (1, 2)][1..] == [(1, 1), (2, 1), (1, 2)];
  }

  /** The moves O:(1,0), X:(2,0), O:(1,1), X:(2,1), O:(1,2) reach it. */
  lemma MiddleRowReachable()
    ensures Play(Default(), [(1, 0), (2, 0), (1, 1), (2, 1), (1, 2)]) == Ok(State(MiddleRowBoard, X))
  {
    NextTo(Default(), (1, 0), AfterOne);
    PlayFromOne();
    assert [(1, 0), (2, 0), (1, 1), (2, 1), (1, 2)][1..] == [(2, 0), (1, 1), (2, 1), (1, 2)];
  }

  /** A successful move is determined by its target cell and the rest of
      the board. */
  lemma NextTo(s: State, pos: (nat, nat), t: State)
    requires InRange(pos) && s.board[pos.0][pos.1] == Empty
    requires t.mover == NextPlayer(s.mover) && t.board[pos.0][pos.1] == Mark(s.mover)
    requires forall i: Index, j: Index :: (i, j) != pos ==> t.board[i][j] == s.board[i][j]
    ensures Next(s, pos) == Ok(t)
  {
    BoardsEqual(Next(s, pos).value.board, t.board);
  }

  /** As written, the empty top row is the first uniform line and hides O's
      completed middle row: no winner is reported. */
  lemma CheckWinnerMissesMiddleRow()
    ensures Owns(MiddleRowBoard, Lines[1], O)
    ensures CheckWinner(MiddleRowBoard) == None
  {
    assert FirstUniform(MiddleRowBoard, Lines, 0);
    EmptyLineMasks(MiddleRowBoard, 0, 1, O);
  }

  /** The corrected detector reports O on the same board. */
  lemma CheckWinnerFixedFindsMiddleRow()
    ensures CheckWinnerFixed(MiddleRowBoard) == Some(O)
  {
    assert !Completed(MiddleRowBoard, Lines[0]);
    FoldCompletedFirst(MiddleRowBoard, Lines, 1, O);
  }
}
