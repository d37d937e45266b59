/**
 * Win detection: the four-cell runs `checkForWin` builds from every cell,
 * the `_win` test on one run, and the facts proved about the whole scan.
 */
module WinCheck {
  import opened Grid

  /** A `(row, column)` pair; it may lie outside the board. */
  type Coord = (int, int)

  /** The four runs anchored at `(y, x)`, written as the source writes them. */
  function Horiz(y: int, x: int): seq<Coord> {
    [(y, x), (y, x + 1), (y, x + 2), (y, x + 3)]
  }

  function Vert(y: int, x: int): seq<Coord> {
    [(y, x), (y + 1, x), (y + 2, x), (y + 3, x)]
  }

  function DiagDR(y: int, x: int): seq<Coord> {
    [(y, x), (y + 1, x + 1), (y + 2, x + 2), (y + 3, x + 3)]
  }

  function DiagDL(y: int, x: int): seq<Coord> {
    [(y, x), (y + 1, x - 1), (y + 2, x - 2), (y + 3, x - 3)]
  }

  predicate InBounds(c: Coord) {
    0 <= c.0 < DefaultHeight && 0 <= c.1 < DefaultWidth
  }

  /**
   * `_win`: every cell of the run is on the board and holds the piece of
   * player `p`. A cell off the board never matches.
   */
  predicate Win(g: Board, cells: seq<Coord>, p: int)
    requires WellFormed(g) && IsPlayer(p)
  {
    forall i :: 0 <= i < |cells| ==> InBounds(cells[i]) && g[cells[i].0][cells[i].1] == PieceOf(p)
  }

  /** A run with a cell off the board never wins, whatever the board holds. */
  lemma OffBoardNeverMatches(g: Board, p: int, cells: seq<Coord>, i: int)
    requires WellFormed(g) && IsPlayer(p) && 0 <= i < |cells| && !InBounds(cells[i])
    ensures !Win(g, cells, p)
  {
  }

  /** One iteration of the scan: some run anchored at `(y, x)` wins. */
  predicate WinAt(g: Board, p: int, y: int, x: int)
    requires WellFormed(g) && IsPlayer(p)
  {
    Win(g, Horiz(y, x), p) || Win(g, Vert(y, x), p) || Win(g, DiagDR(y, x), p) || Win(g, DiagDL(y, x), p)
  }

  /** What `checkForWin` decides: a winning run is anchored at some cell. */
  predicate HasWin(g: Board, p: int)
    requires WellFormed(g) && IsPlayer(p)
  {
    exists y, x :: 0 <= y < DefaultHeight && 0 <= x < DefaultWidth && WinAt(g, p, y, x)
  }

  /**
   * An independent description of a win: four consecutive cells along any
   * of the eight compass directions, starting anywhere.
   */
  function Ray(y: int, x: int, dy: int, dx: int): seq<Coord> {
    [(y, x), (y + dy, x + dx), (y + 2 * dy, x + 2 * dx), (y + 3 * dy, x + 3 * dx)]
  }

  predicate IsDirection(dy: int, dx: int) {
    -1 <= dy <= 1 && -1 <= dx <= 1 && (dy, dx) != (0, 0)
  }

  ghost predicate FourInARow(g: Board, p: int)
    requires WellFormed(g) && IsPlayer(p)
  {
    exists y, x, dy, dx :: IsDirection(dy, dx) && Win(g, Ray(y, x, dy, dx), p)
  }

  /** Two runs holding the same four cells, one read backwards, win alike. */
  lemma ReversedRunWins(g: Board, p: int, r: seq<Coord>, s: seq<Coord>)
    requires WellFormed(g) && IsPlayer(p) && |r| == 4 && |s| == 4
    requires forall i :: 0 <= i < 4 ==> s[i] == r[3 - i]
    requires Win(g, r, p)
    ensures Win(g, s, p)
  {
  }

  /** Each run the scan builds is a line in one of the four forward directions. */
  lemma RunsAreRays(y: int, x: int)
    ensures Horiz(y, x) == Ray(y, x, 0, 1) && Vert(y, x) == Ray(y, x, 1, 0)
    ensures DiagDR(y, x) == Ray(y, x, 1, 1) && DiagDL(y, x) == Ray(y, x, 1, -1)
  {
  }

  /** A winning run whose first cell is `(y, x)` makes the scan succeed there. */
  lemma FoundAt(g: Board, p: int, y: int, x: int, r: seq<Coord>)
    requires WellFormed(g) && IsPlayer(p) && |r| == 4 && r[0] == (y, x)
    requires Win(g, r, p) && WinAt(g, p, y, x)
    ensures HasWin(g, p)
  {
  }

  /** A winning line in any of the eight directions is found by the scan. */
  lemma RayFound(g: Board, p: int, y: int, x: int, dy: int, dx: int)
    requires WellFormed(g) && IsPlayer(p) && IsDirection(dy, dx)
    requires Win(g, Ray(y, x, dy, dx), p)
    ensures HasWin(g, p)
  {
    var r := Ray(y, x, dy, dx);
    if dy == 0 && dx == 1 {
      RunsAreRays(y, x);
      FoundAt(g, p, y, x, r);
    } else if dy == 1 && dx == 0 {
      RunsAreRays(y, x);
      FoundAt(g, p, y, x, r);
    } else if dy == 1 && dx == 1 {
      RunsAreRays(y, x);
      FoundAt(g, p, y, x, r);
    } else if dy == 1 && dx == -1 {
      RunsAreRays(y, x);
      FoundAt(g, p, y, x, r);
    } else if dy == 0 {
      // leftward: the row run from the line's last cell
      ReversedRunWins(g, p, r, Horiz(y, x - 3));
      FoundAt(g, p, y, x - 3, Horiz(y, x - 3));
    } else if dx == 0 {
      // upward: the column run from the line's last cell
      ReversedRunWins(g, p, r, Vert(y - 3, x));
      FoundAt(g, p, y - 3, x, Vert(y - 3, x));
    } else if dx == -1 {
      // up and left: the down-right run from the line's last cell
      ReversedRunWins(g, p, r, DiagDR(y - 3, x - 3));
      FoundAt(g, p, y - 3, x - 3, DiagDR(y - 3, x - 3));
    } else {
      // up and right: the down-left run from the line's last cell
      ReversedRunWins(g, p, r, DiagDL(y - 3, x + 3));
      FoundAt(g, p, y - 3, x + 3, DiagDL(y - 3, x + 3));
    }
  }

  /**
   * The four directions the scan tries, anchored at every cell, find every
   * four-in-a-row in any of the eight directions: nothing is missed and
   * nothing is made up.
   */
  lemma HasWinIffFourInARow(g: Board, p: int)
    requires WellFormed(g) && IsPlayer(p)
    ensures HasWin(g, p) <==> FourInARow(g, p)
  {
    if HasWin(g, p) {
      var y, x :| 0 <= y < DefaultHeight && 0 <= x < DefaultWidth && WinAt(g, p, y, x);
      RunsAreRays(y, x);
      assert IsDirection(0, 1) && IsDirection(1, 0) && IsDirection(1, 1) && IsDirection(1, -1);
    }
    if FourInARow(g, p) {
      var y, x, dy, dx :| IsDirection(dy, dx) && Win(g, Ray(y, x, dy, dx), p);
      RayFound(g, p, y, x, dy, dx);
    }
  }

  /** The board seen in a mirror: column `x` becomes column `DefaultWidth - 1 - x`. */
  function Mirror(g: Board): (m: Board)
    requires WellFormed(g)
    ensures WellFormed(m)
    ensures forall y, x :: 0 <= y < DefaultHeight && 0 <= x < DefaultWidth ==> m[y][x] == g[y][DefaultWidth - 1 - x]
  {
    seq(DefaultHeight, y requires 0 <= y < DefaultHeight =>
      seq(DefaultWidth, x requires 0 <= x < DefaultWidth => g[y][DefaultWidth - 1 - x]))
  }

  /** Where cell `c` of a board is seen in its mirror image. */
  function Reflect(c: Coord): Coord {
    (c.0, DefaultWidth - 1 - c.1)
  }

  /**
   * A winning run, reflected cell by cell (in the same order or reversed),
   * is a winning run of the mirror image.
   */
  lemma MirrorRun(g: Board, p: int, r: seq<Coord>, s: seq<Coord>, reversed: bool)
    requires WellFormed(g) && IsPlayer(p) && |r| == 4 && |s| == 4
    requires Win(g, r, p)
    requires forall i :: 0 <= i < 4 ==> Reflect(s[i]) == r[if reversed then 3 - i else i]
    ensures Win(Mirror(g), s, p)
  {
  }

  /** A winning run of a mirrored board, found at the mirrored anchor. */
  lemma MirrorFound(g: Board, p: int, y: int, x: int)
    requires WellFormed(g) && IsPlayer(p) && 0 <= y < DefaultHeight && 0 <= x < DefaultWidth
    requires WinAt(Mirror(g), p, y, x)
    ensures HasWin(Mirror(g), p)
  {
  }

  lemma MirrorHoriz(g: Board, p: int, y: int, x: int)
    requires WellFormed(g) && IsPlayer(p) && Win(g, Horiz(y, x), p)
    ensures HasWin(Mirror(g), p)
  {
    assert InBounds(Horiz(y, x)[0]) && InBounds(Horiz(y, x)[3]);
    MirrorRun(g, p, Horiz(y, x), Horiz(y, DefaultWidth - 4 - x), true);
    MirrorFound(g, p, y, DefaultWidth - 4 - x);
  }

  lemma MirrorVert(g: Board, p: int, y: int, x: int)
    requires WellFormed(g) && IsPlayer(p) && Win(g, Vert(y, x), p)
    ensures HasWin(Mirror(g), p)
  {
    assert InBounds(Vert(y, x)[0]);
    MirrorRun(g, p, Vert(y, x), Vert(y, DefaultWidth - 1 - x), false);
    MirrorFound(g, p, y, DefaultWidth - 1 - x);
  }

  lemma MirrorDiagDR(g: Board, p: int, y: int, x: int)
    requires WellFormed(g) && IsPlayer(p) && Win(g, DiagDR(y, x), p)
    ensures HasWin(Mirror(g), p)
  {
    assert InBounds(DiagDR(y, x)[0]);
    MirrorRun(g, p, DiagDR(y, x), DiagDL(y, DefaultWidth - 1 - x), false);
    MirrorFound(g, p, y, DefaultWidth - 1 - x);
  }

  lemma MirrorDiagDL(g: Board, p: int, y: int, x: int)
    requires WellFormed(g) && IsPlayer(p) && Win(g, DiagDL(y, x), p)
    ensures HasWin(Mirror(g), p)
  {
    assert InBounds(DiagDL(y, x)[0]);
    MirrorRun(g, p, DiagDL(y, x), DiagDR(y, DefaultWidth - 1 - x), false);
    MirrorFound(g, p, y, DefaultWidth - 1 - x);
  }

  /**
   * Mirroring a winning board keeps a winning run: a row stays a row, a
   * column a column, and the two diagonals trade places.
   */
  lemma MirrorKeepsWin(g: Board, p: int)
    requires WellFormed(g) && IsPlayer(p)
    requires HasWin(g, p)
    ensures HasWin(Mirror(g), p)
  {
    var y, x :| 0 <= y < DefaultHeight && 0 <= x < DefaultWidth && WinAt(g, p, y, x);
    if Win(g, Horiz(y, x), p) {
      MirrorHoriz(g, p, y, x);
    } else if Win(g, Vert(y, x), p) {
      MirrorVert(g, p, y, x);
    } else if Win(g, DiagDR(y, x), p) {
      MirrorDiagDR(g, p, y, x);
    } else {
      MirrorDiagDL(g, p, y, x);
    }
  }

  /** Win detection treats a board and its mirror image alike. */
  lemma MirrorSymmetric(g: Board, p: int)
    requires WellFormed(g) && IsPlayer(p)
    ensures HasWin(Mirror(g), p) <==> HasWin(g, p)
  {
    assert Mirror(Mirror(g)) == g by {
      var mm := Mirror(Mirror(g));
      forall y | 0 <= y < DefaultHeight ensures mm[y] == g[y] {
        assert forall x :: 0 <= x < DefaultWidth ==> mm[y][x] == g[y][x];
      }
    }
    if HasWin(g, p) {
      MirrorKeepsWin(g, p);
    }
    if HasWin(Mirror(g), p) {
      MirrorKeepsWin(Mirror(g), p);
    }
  }
}
