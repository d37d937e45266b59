/**
 * The game engine: the global state `board` and `currPlayer` as a class, and
 * the move handler without its display calls. `Step` is the transition one
 * move makes, as a function of the state before it; `Game.Drop` is proved to
 * perform exactly that transition.
 */
module Engine {
  import opened Grid
  import opened WinCheck

  /** What a click leads to, in place of the announcement the page shows. */
  datatype Outcome = Ignored | Won(player: int) | Tie | Continue

  /** The player that moves next: 2 after 1, and 1 after anything else. */
  function Other(p: int): (q: int)
    ensures IsPlayer(p) ==> IsPlayer(q) && q != p
  {
    if p == 1 then 2 else 1
  }

  datatype StepResult = StepResult(board: Board, player: int, outcome: Outcome)

  /**
   * One click on column `x`: a full column is ignored; otherwise the piece of
   * `p` lands in the column's lowest empty row, and the move wins, ties (the
   * board is full and nobody won) or hands the turn to the other player.
   */
  ghost function Step(g: Board, p: int, x: int): (r: StepResult)
    requires WellFormed(g) && IsPlayer(p) && 0 <= x < DefaultWidth
    ensures WellFormed(r.board) && IsPlayer(r.player)
    ensures r.outcome == Ignored <==> LandingRow(g, x).None?
    ensures r.outcome == Ignored ==> r.board == g && r.player == p
    ensures r.player == if r.outcome == Continue then Other(p) else p
  {
    match LandingRow(g, x)
    case None => StepResult(g, p, Ignored)
    case Some(y) =>
      var g' := Place(g, y, x, PieceOf(p));
      if HasWin(g', p) then StepResult(g', p, Won(p))
      else if Full(g') then StepResult(g', p, Tie)
      else StepResult(g', Other(p), Continue)
  }

  /**
   * How an accepted move ends: a win when the mover now has four in a row,
   * otherwise a tie when the board is full, otherwise play goes on.
   */
  lemma StepOutcome(g: Board, p: int, x: int)
    requires WellFormed(g) && IsPlayer(p) && 0 <= x < DefaultWidth
    ensures var r := Step(g, p, x);
      (r.outcome == Won(p) <==> r.outcome != Ignored && HasWin(r.board, p)) &&
      (r.outcome == Tie <==> r.outcome != Ignored && !HasWin(r.board, p) && Full(r.board)) &&
      (r.outcome == Continue <==> r.outcome != Ignored && !HasWin(r.board, p) && !Full(r.board)) &&
      (r.outcome.Won? ==> r.outcome.player == p)
  {
  }

  /**
   * An accepted move writes the mover's piece into the landing cell of the
   * column, which was empty, and leaves every other cell as it was.
   */
  lemma StepChangesOneCell(g: Board, p: int, x: int)
    requires WellFormed(g) && IsPlayer(p) && 0 <= x < DefaultWidth
    requires Step(g, p, x).outcome != Ignored
    ensures var y := LandingRow(g, x).value; var r := Step(g, p, x).board;
      g[y][x] == Empty && r[y][x] == PieceOf(p) &&
      forall y', x' :: 0 <= y' < DefaultHeight && 0 <= x' < DefaultWidth && (y', x') != (y, x) ==> r[y'][x'] == g[y'][x']
  {
  }

  /** Every move keeps the pieces of each column stacked from the bottom. */
  lemma StepKeepsGravity(g: Board, p: int, x: int)
    requires WellFormed(g) && IsPlayer(p) && 0 <= x < DefaultWidth
    requires Gravity(g)
    ensures Gravity(Step(g, p, x).board)
  {
    if LandingRow(g, x).Some? {
      PlaceKeepsGravity(g, x, PieceOf(p));
    }
  }

  /** A move that completes four in a row on its last empty cell is a win. */
  lemma WinBeforeTie(g: Board, p: int, x: int)
    requires WellFormed(g) && IsPlayer(p) && 0 <= x < DefaultWidth
    requires LandingRow(g, x).Some?
    requires var g' := Place(g, LandingRow(g, x).value, x, PieceOf(p)); HasWin(g', p) && Full(g')
    ensures Step(g, p, x).outcome == Won(p)
  {
  }

  /**
   * Nothing stops play after a win or a tie: any column with an empty cell
   * still takes the next piece.
   */
  lemma NoGameOverLock(g: Board, p: int, x: int, x2: int)
    requires WellFormed(g) && IsPlayer(p) && 0 <= x < DefaultWidth && 0 <= x2 < DefaultWidth
    requires Step(g, p, x).outcome.Won?
    requires LandingRow(Step(g, p, x).board, x2).Some?
    ensures Step(Step(g, p, x).board, Step(g, p, x).player, x2).outcome != Ignored
  {
  }

  /** The clicks `xs` played in order from board `g` with `p` to move. */
  datatype Trace = Trace(board: Board, player: int, outcomes: seq<Outcome>)

  predicate ValidColumns(xs: seq<int>) {
    forall i :: 0 <= i < |xs| ==> 0 <= xs[i] < DefaultWidth
  }

  ghost function Play(g: Board, p: int, xs: seq<int>): (t: Trace)
    requires WellFormed(g) && IsPlayer(p) && ValidColumns(xs)
    ensures WellFormed(t.board) && IsPlayer(t.player) && |t.outcomes| == |xs|
    decreases |xs|
  {
    if xs == [] then Trace(g, p, [])
    else
      var s := Step(g, p, xs[0]);
      var t := Play(s.board, s.player, xs[1..]);
      Trace(t.board, t.player, [s.outcome] + t.outcomes)
  }

  /** How many of the outcomes handed the turn over. */
  function Continues(os: seq<Outcome>): nat {
    if os == [] then 0 else (if os[0] == Continue then 1 else 0) + Continues(os[1..])
  }

  /** The first click of a sequence, then the rest from the state it leaves. */
  lemma PlayFirst(g: Board, p: int, xs: seq<int>)
    requires WellFormed(g) && IsPlayer(p) && ValidColumns(xs) && xs != []
    ensures var s := Step(g, p, xs[0]); var t := Play(s.board, s.player, xs[1..]);
      Play(g, p, xs) == Trace(t.board, t.player, [s.outcome] + t.outcomes)
  {
  }

  /** One more move before `n` others: the turn flips once more exactly when it continued. */
  lemma TurnParity(p: int, first: Outcome, q: int, n: nat, r: int)
    requires IsPlayer(p)
    requires q == if first == Continue then Other(p) else p
    requires r == if n % 2 == 0 then q else Other(q)
    ensures r == if ((if first == Continue then 1 else 0) + n) % 2 == 0 then p else Other(p)
  {
  }

  /**
   * Turns alternate: whatever the clicks, the player to move is the first
   * player after an even number of moves that handed the turn over and the
   * other one after an odd number. Ignored clicks, wins and ties keep the
   * player to move.
   */
  lemma {:induction false} PlayAlternates(g: Board, p: int, xs: seq<int>)
    requires WellFormed(g) && IsPlayer(p) && ValidColumns(xs)
    ensures Play(g, p, xs).player == if Continues(Play(g, p, xs).outcomes) % 2 == 0 then p else Other(p)
    decreases |xs|
  {
    if xs != [] {
      var s := Step(g, p, xs[0]);
      var t := Play(s.board, s.player, xs[1..]);
      PlayFirst(g, p, xs);
      PlayAlternates(s.board, s.player, xs[1..]);
      assert ([s.outcome] + t.outcomes)[1..] == t.outcomes;
      TurnParity(p, s.outcome, s.player, Continues(t.outcomes), t.player);
    }
  }

  /** Gravity holds after any sequence of clicks that starts from it. */
  lemma {:induction false} PlayKeepsGravity(g: Board, p: int, xs: seq<int>)
    requires WellFormed(g) && IsPlayer(p) && ValidColumns(xs)
    requires Gravity(g)
    ensures Gravity(Play(g, p, xs).board)
    decreases |xs|
  {
    if xs != [] {
      var s := Step(g, p, xs[0]);
      StepKeepsGravity(g, p, xs[0]);
      PlayKeepsGravity(s.board, s.player, xs[1..]);
    }
  }

  /**
   * The page's global state: the board, and the player whose piece the next
   * click drops.
   */
  class Game {
    var board: Board
    var currPlayer: int

    ghost predicate Valid()
      reads this
    {
      WellFormed(board) && IsPlayer(currPlayer)
    }

    /** The state before the board is built: player 1 to move, no rows yet. */
    constructor ()
      ensures board == [] && currPlayer == 1
    {
      board := [];
      currPlayer := 1;
    }

    /** Replace the board by an empty one; the player to move stays. */
    method MakeBoard()
      modifies this`board
      ensures WellFormed(board)
      ensures forall y, x :: 0 <= y < DefaultHeight && 0 <= x < DefaultWidth ==> board[y][x] == Empty
      ensures board == EmptyBoard()
    {
      board := EmptyBoard();
    }

    /** Scan column `x` from the bottom row up for the first empty cell. */
    method FindSpotForCol(x: int) returns (r: Option<nat>)
      requires WellFormed(board) && 0 <= x < DefaultWidth
      ensures r.Some? ==> r.value < DefaultHeight && board[r.value][x] == Empty
      ensures r.Some? ==> forall y :: r.value < y < DefaultHeight ==> board[y][x] != Empty
      ensures r.None? <==> forall y :: 0 <= y < DefaultHeight ==> board[y][x] != Empty
      ensures r == LandingRow(board, x)
    {
      var y := DefaultHeight - 1;
      while y >= 0
        invariant -1 <= y < DefaultHeight
        invariant forall y' :: y < y' < DefaultHeight ==> board[y'][x] != Empty
        invariant LandingRow(board, x) == LandingRowFrom(board, x, y)
      {
        if board[y][x] == Empty {
          return Some(y);
        }
        y := y - 1;
      }
      return None;
    }

    /**
     * Try every run anchored at every cell, row by row, and stop at the first
     * one whose four cells are on the board and hold the current player's piece.
     */
    method CheckForWin() returns (won: bool)
      requires Valid()
      ensures won <==> HasWin(board, currPlayer)
    {
      for y := 0 to DefaultHeight
        invariant forall y', x' :: 0 <= y' < y && 0 <= x' < DefaultWidth ==> !WinAt(board, currPlayer, y', x')
      {
        for x := 0 to DefaultWidth
          invariant forall y', x' :: 0 <= y' < y && 0 <= x' < DefaultWidth ==> !WinAt(board, currPlayer, y', x')
          invariant forall x' :: 0 <= x' < x ==> !WinAt(board, currPlayer, y, x')
        {
          var horiz, vert, diagDR, diagDL := Horiz(y, x), Vert(y, x), DiagDR(y, x), DiagDL(y, x);
          if Win(board, horiz, currPlayer) || Win(board, vert, currPlayer) || Win(board, diagDR, currPlayer) || Win(board, diagDL, currPlayer) {
            assert WinAt(board, currPlayer, y, x);
            return true;
          }
        }
      }
      return false;
    }

    /**
     * A click on column `x`. A full column leaves everything as it was.
     * Otherwise the current player's piece goes into the landing cell; a
     * win is reported first, then a tie, and only a move that does neither
     * hands the turn to the other player.
     */
    method Drop(x: int) returns (o: Outcome)
      requires Valid() && 0 <= x < DefaultWidth
      modifies this
      ensures Valid()
      ensures StepResult(board, currPlayer, o) == Step(old(board), old(currPlayer), x)
      ensures o == Ignored <==> LandingRow(old(board), x).None?
      ensures o == Ignored ==> board == old(board) && currPlayer == old(currPlayer)
      ensures o != Ignored ==> var y := LandingRow(old(board), x).value;
        board[y][x] == PieceOf(old(currPlayer)) &&
        forall y', x' :: 0 <= y' < DefaultHeight && 0 <= x' < DefaultWidth && (y', x') != (y, x) ==> board[y'][x'] == old(board)[y'][x']
      ensures o != Ignored ==>
        (o == Won(old(currPlayer)) <==> HasWin(board, old(currPlayer))) &&
        (o == Tie <==> !HasWin(board, old(currPlayer)) && Full(board)) &&
        (o == Continue <==> !HasWin(board, old(currPlayer)) && !Full(board))
      ensures currPlayer == if o == Continue then Other(old(currPlayer)) else old(currPlayer)
      ensures old(Gravity(board)) ==> Gravity(board)
    {
      StepOutcome(board, currPlayer, x);
      assert Gravity(board) ==> Gravity(Step(board, currPlayer, x).board) by {
        if Gravity(board) {
          StepKeepsGravity(board, currPlayer, x);
        }
      }
      var y := FindSpotForCol(x);
      if y.None? {
        return Ignored;
      }
      board := Place(board, y.value, x, PieceOf(currPlayer));
      var won := CheckForWin();
      if won {
        return Won(currPlayer);
      }
      if Full(board) {
        return Tie;
      }
      currPlayer := Other(currPlayer);
      o := Continue;
    }
  }
}
