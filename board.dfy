/**
 * The Connect Four board: a grid of `DefaultHeight` rows of `DefaultWidth`
 * cells, indexed `g[y][x]`, with row 0 at the top and row `DefaultHeight - 1`
 * at the bottom, where dropped pieces settle first.
 */
module Grid {

  const DefaultWidth := 7
  const DefaultHeight := 6

  datatype Option<T> = None | Some(value: T)

  /** A cell is empty or holds the piece of player 1 or player 2. */
  datatype Cell = Empty | P1 | P2

  type Board = seq<seq<Cell>>

  /** The two player numbers the game uses. */
  predicate IsPlayer(p: int) {
    p == 1 || p == 2
  }

  /** The piece a player leaves in a cell. */
  function PieceOf(p: int): (c: Cell)
    requires IsPlayer(p)
    ensures c != Empty
    ensures (c == P1) <==> (p == 1)
  {
    if p == 1 then P1 else P2
  }

  /** `DefaultHeight` rows, each of `DefaultWidth` cells. */
  predicate WellFormed(g: Board) {
    |g| == DefaultHeight && forall y :: 0 <= y < |g| ==> |g[y]| == DefaultWidth
  }

  /** The board `makeBoard` builds: every cell of every row empty. */
  function EmptyBoard(): (g: Board)
    ensures WellFormed(g)
    ensures forall y, x :: 0 <= y < DefaultHeight && 0 <= x < DefaultWidth ==> g[y][x] == Empty
  {
    seq(DefaultHeight, _ => seq(DefaultWidth, _ => Empty))
  }

  /**
   * Scanning column `x` upward from row `y`: the first empty row met, or
   * None when rows `0..y` of the column are all occupied.
   */
  function LandingRowFrom(g: Board, x: int, y: int): (r: Option<nat>)
    requires WellFormed(g) && 0 <= x < DefaultWidth && -1 <= y < DefaultHeight
    ensures r.Some? ==> r.value <= y && g[r.value][x] == Empty
    ensures r.Some? ==> forall y' :: r.value < y' <= y ==> g[y'][x] != Empty
    ensures r.None? <==> forall y' :: 0 <= y' <= y ==> g[y'][x] != Empty
    decreases y + 1
  {
    if y < 0 then None
    else if g[y][x] == Empty then Some(y)
    else LandingRowFrom(g, x, y - 1)
  }

  /**
   * The row a piece dropped into column `x` lands in: the lowest empty row
   * of the column, or None when the column is full.
   */
  function LandingRow(g: Board, x: int): (r: Option<nat>)
    requires WellFormed(g) && 0 <= x < DefaultWidth
    ensures r.Some? ==> r.value < DefaultHeight && g[r.value][x] == Empty
    ensures r.Some? ==> forall y :: r.value < y < DefaultHeight ==> g[y][x] != Empty
    ensures r.None? <==> forall y :: 0 <= y < DefaultHeight ==> g[y][x] != Empty
  {
    LandingRowFrom(g, x, DefaultHeight - 1)
  }

  /** The board with cell `(y, x)` set to `c`. */
  function Place(g: Board, y: int, x: int, c: Cell): (r: Board)
    requires WellFormed(g) && 0 <= y < DefaultHeight && 0 <= x < DefaultWidth
    ensures WellFormed(r) && r[y][x] == c
    ensures forall y', x' :: 0 <= y' < DefaultHeight && 0 <= x' < DefaultWidth && (y', x') != (y, x) ==> r[y'][x'] == g[y'][x']
  {
    g[y := g[y][x := c]]
  }

  /** The tie test: every cell of every row is occupied. */
  predicate Full(g: Board) {
    forall y :: 0 <= y < |g| ==> forall x :: 0 <= x < |g[y]| ==> g[y][x] != Empty
  }

  /**
   * Gravity: in every column the occupied cells form one block that ends at
   * the bottom row, so nothing occupied ever sits above an empty cell.
   */
  predicate Gravity(g: Board)
    requires WellFormed(g)
  {
    forall x, y1, y2 :: 0 <= x < DefaultWidth && 0 <= y1 < y2 < DefaultHeight && g[y1][x] != Empty ==> g[y2][x] != Empty
  }

  /** The board is full exactly when no column has a landing row. */
  lemma FullIffNoLandingRow(g: Board)
    requires WellFormed(g)
    ensures Full(g) <==> forall x :: 0 <= x < DefaultWidth ==> LandingRow(g, x).None?
  {
    if !Full(g) {
      var y, x :| 0 <= y < DefaultHeight && 0 <= x < DefaultWidth && g[y][x] == Empty;
      assert LandingRow(g, x).Some?;
    }
  }

  /** A column with no piece in it receives its first piece in the bottom row. */
  lemma EmptyColumnLandsAtBottom(g: Board, x: int)
    requires WellFormed(g) && 0 <= x < DefaultWidth
    requires forall y :: 0 <= y < DefaultHeight ==> g[y][x] == Empty
    ensures LandingRow(g, x) == Some(DefaultHeight - 1)
  {
  }

  /**
   * On a board that obeys gravity the landing row splits its column: every
   * cell at or above it is empty and every cell below it is occupied.
   */
  lemma GravityLandingRow(g: Board, x: int)
    requires WellFormed(g) && Gravity(g) && 0 <= x < DefaultWidth
    requires LandingRow(g, x).Some?
    ensures forall y :: 0 <= y <= LandingRow(g, x).value ==> g[y][x] == Empty
    ensures forall y :: LandingRow(g, x).value < y < DefaultHeight ==> g[y][x] != Empty
  {
  }

  /** Placing a piece at the landing row of a column keeps gravity. */
  lemma PlaceKeepsGravity(g: Board, x: int, c: Cell)
    requires WellFormed(g) && Gravity(g) && 0 <= x < DefaultWidth
    requires LandingRow(g, x).Some? && c != Empty
    ensures Gravity(Place(g, LandingRow(g, x).value, x, c))
  {
  }

  /** The empty board obeys gravity and is not full. */
  lemma EmptyBoardFacts()
    ensures Gravity(EmptyBoard()) && !Full(EmptyBoard())
  {
    assert EmptyBoard()[0][0] == Empty;
  }
}
