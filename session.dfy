/** The application's game session: the union of an O-to-move and an
    X-to-move state, and the last error reported, updated by a click on a
    cell. Rendering is not modelled; only the dispatch of a click is. */
module Session {
  import opened Game

  /** The two pieces of state the application keeps: the game, and the
      last error a move reported (shown to the player). */
  datatype AppState = AppState(game: Either, error: Option<GameError>)

  /** The application starts with O to move on an empty board, and no error. */
  function Start(): (a: AppState)
    ensures a.game.Left? && Inner(a.game) == Default()
    ensures a.error == None
  {
    AppState(Into(Default()), None)
  }

  /** The board of whichever case of the union is active. */
  function CurrentBoard(a: AppState): (b: Board)
    ensures a.game == Left(State(b, Mover(a))) || a.game == Right(State(b, Mover(a)))
  {
    Inner(a.game).board
  }

  /** The player to move in whichever case of the union is active. */
  function Mover(a: AppState): Player
  {
    Inner(a.game).mover
  }

  /** A click on `pos`: the active case's state makes the move. On success
      the new state replaces the game (re-wrapped, so the case flips); on
      failure only the error is recorded and the game stays as it was.
      A successful move does not clear an earlier error. */
  function Submit(a: AppState, pos: (nat, nat)): (a': AppState)
    requires InRange(pos)
    ensures CurrentBoard(a)[pos.0][pos.1] != Empty ==> a'.game == a.game && a'.error == Some(SpotTaken)
    ensures CurrentBoard(a)[pos.0][pos.1] == Empty ==>
              && a'.error == a.error
              && WellTagged(a'.game)
              && Mover(a') == NextPlayer(Mover(a))
              && CurrentBoard(a')[pos.0][pos.1] == Mark(Mover(a))
              && (forall i: Index, j: Index :: (i, j) != pos ==> CurrentBoard(a')[i][j] == CurrentBoard(a)[i][j])
  {
    match Next(Inner(a.game), pos)
    case Ok(s) => AppState(Into(s), a.error)
    case Err(e) => AppState(a.game, Some(e))
  }

  /** The session invariant: the union's case agrees with the mover, and
      the marks on the board match the mover. */
  predicate Consistent(a: AppState)
  {
    WellTagged(a.game) && TurnBalanced(Inner(a.game))
  }

  lemma StartConsistent()
    ensures Consistent(Start())
  {
    DefaultBalanced();
  }

  lemma SubmitPreservesConsistent(a: AppState, pos: (nat, nat))
    requires InRange(pos) && Consistent(a)
    ensures Consistent(Submit(a, pos))
  {
    if Next(Inner(a.game), pos).Ok? {
      NextPreservesBalance(Inner(a.game), pos);
    }
  }

  /** One click swaps the mover and fills one empty cell when it is
      accepted, and changes neither when it is rejected. */
  lemma SubmitStep(a: AppState, pos: (nat, nat))
    requires InRange(pos)
    ensures Mover(Submit(a, pos))
         == if CurrentBoard(a)[pos.0][pos.1] == Empty then NextPlayer(Mover(a)) else Mover(a)
    ensures CountOf(CurrentBoard(Submit(a, pos)), Empty)
         == CountOf(CurrentBoard(a), Empty) - (if CurrentBoard(a)[pos.0][pos.1] == Empty then 1 else 0)
  {
    if CurrentBoard(a)[pos.0][pos.1] == Empty {
      NextFillsOneCell(Inner(a.game), pos);
    }
  }

  /** A sequence of clicks, each applied to the session the previous one left. */
  function SubmitAll(a: AppState, clicks: seq<(nat, nat)>): AppState
    requires forall i :: 0 <= i < |clicks| ==> InRange(clicks[i])
    decreases |clicks|
  {
    if clicks == [] then a
    else SubmitAll(Submit(a, clicks[0]), clicks[1..])
  }

  /** How many of the clicks were accepted as moves. */
  function Accepted(a: AppState, clicks: seq<(nat, nat)>): nat
    requires forall i :: 0 <= i < |clicks| ==> InRange(clicks[i])
    decreases |clicks|
  {
    if clicks == [] then 0
    else
      assert InRange(clicks[0]);
      (if CurrentBoard(a)[clicks[0].0][clicks[0].1] == Empty then 1 else 0)
      + Accepted(Submit(a, clicks[0]), clicks[1..])
  }

  /** Clicks, accepted or rejected, keep the session invariant. */
  lemma {:induction false} SubmitAllConsistent(a: AppState, clicks: seq<(nat, nat)>)
    requires forall i :: 0 <= i < |clicks| ==> InRange(clicks[i])
    requires Consistent(a)
    ensures Consistent(SubmitAll(a, clicks))
    decreases |clicks|
  {
    if clicks != [] {
      SubmitPreservesConsistent(a, clicks[0]);
      SubmitAllConsistent(Submit(a, clicks[0]), clicks[1..]);
    }
  }

  /** A non-empty run of clicks is its first click followed by the rest. */
  lemma SubmitAllStep(a: AppState, clicks: seq<(nat, nat)>)
    requires forall i :: 0 <= i < |clicks| ==> InRange(clicks[i])
    requires clicks != []
    ensures SubmitAll(a, clicks) == SubmitAll(Submit(a, clicks[0]), clicks[1..])
    ensures Accepted(a, clicks)
         == (if CurrentBoard(a)[clicks[0].0][clicks[0].1] == Empty then 1 else 0)
            + Accepted(Submit(a, clicks[0]), clicks[1..])
  {
  }

  /** Clicks swap the mover once per accepted click. */
  lemma {:induction false} SubmitAllSwapsMover(a: AppState, clicks: seq<(nat, nat)>)
    requires forall i :: 0 <= i < |clicks| ==> InRange(clicks[i])
    ensures Mover(SubmitAll(a, clicks)) == Swapped(Mover(a), Accepted(a, clicks))
    decreases |clicks|
  {
    if clicks != [] {
      SubmitAllStep(a, clicks);
      SubmitStep(a, clicks[0]);
      SubmitAllSwapsMover(Submit(a, clicks[0]), clicks[1..]);
    }
  }

  /** Clicks fill one empty cell per accepted click. */
  lemma {:induction false} SubmitAllFillsCells(a: AppState, clicks: seq<(nat, nat)>)
    requires forall i :: 0 <= i < |clicks| ==> InRange(clicks[i])
    ensures CountOf(CurrentBoard(SubmitAll(a, clicks)), Empty) == CountOf(CurrentBoard(a), Empty) - Accepted(a, clicks)
    decreases |clicks|
  {
    if clicks != [] {
      SubmitAllStep(a, clicks);
      SubmitStep(a, clicks[0]);
      SubmitAllFillsCells(Submit(a, clicks[0]), clicks[1..]);
    }
  }

  /** From the start, the mover is O exactly when an even number of clicks
      has been accepted, and the union's case always agrees with it. */
  lemma StartAlternates(clicks: seq<(nat, nat)>)
    requires forall i :: 0 <= i < |clicks| ==> InRange(clicks[i])
    ensures WellTagged(SubmitAll(Start(), clicks).game)
    ensures Mover(SubmitAll(Start(), clicks)) == O <==> Accepted(Start(), clicks) % 2 == 0
    ensures CountOf(CurrentBoard(SubmitAll(Start(), clicks)), Empty) == 9 - Accepted(Start(), clicks)
  {
    StartConsistent();
    DefaultCounts();
    SubmitAllConsistent(Start(), clicks);
    SubmitAllSwapsMover(Start(), clicks);
    SwappedParity(O, Accepted(Start(), clicks));
    SubmitAllFillsCells(Start(), clicks);
  }

  /** A marked cell keeps its mark through any later clicks, accepted or
      rejected. */
  lemma {:induction false} SubmitAllKeepsMarks(a: AppState, clicks: seq<(nat, nat)>, cell: Cell)
    requires forall i :: 0 <= i < |clicks| ==> InRange(clicks[i])
    requires CurrentBoard(a)[cell.0][cell.1] != Empty
    ensures CurrentBoard(SubmitAll(a, clicks))[cell.0][cell.1] == CurrentBoard(a)[cell.0][cell.1]
    decreases |clicks|
  {
    if clicks != [] {
      var a' := Submit(a, clicks[0]);
      assert CurrentBoard(a')[cell.0][cell.1] == CurrentBoard(a)[cell.0][cell.1];
      SubmitAllKeepsMarks(a', clicks[1..], cell);
    }
  }

  /** O's first click on (0,0) succeeds: X moves next, and (0,0) holds O's
      mark with every other cell still empty. */
  lemma FirstMove()
    ensures Submit(Start(), (0, 0)).game.Right?
    ensures CurrentBoard(Submit(Start(), (0, 0)))[0][0] == Occupied(O)
    ensures forall i: Index, j: Index :: (i, j) != (0, 0) ==> CurrentBoard(Submit(Start(), (0, 0)))[i][j] == Empty
  {
  }

  /** X clicking the cell O has just taken is rejected with SpotTaken and
      changes nothing in the game. */
  lemma SecondClickOnTakenCell()
    ensures Submit(Submit(Start(), (0, 0)), (0, 0)).game == Submit(Start(), (0, 0)).game
    ensures Submit(Submit(Start(), (0, 0)), (0, 0)).error == Some(SpotTaken)
  {
  }
}
