/**
 * Worked plays on the 6 x 7 board: a column filling from the bottom, the
 * four-in-a-column win, and a diagonal win.
 */
module Scenarios {
  import opened Grid
  import opened WinCheck
  import opened Engine

  /** Drop piece `c` into column `x`; a full column is left as it is. */
  function DropPiece(g: Board, x: int, c: Cell): (r: Board)
    requires WellFormed(g) && 0 <= x < DefaultWidth
    ensures WellFormed(r)
    ensures LandingRow(g, x).None? ==> r == g
  {
    match LandingRow(g, x)
    case None => g
    case Some(y) => Place(g, y, x, c)
  }

  /** Drop the pieces into column `x`, one after the other, with no turn order. */
  function DropAll(g: Board, x: int, pieces: seq<Cell>): (r: Board)
    requires WellFormed(g) && 0 <= x < DefaultWidth
    ensures WellFormed(r)
    decreases |pieces|
  {
    if pieces == [] then g
    else DropPiece(DropAll(g, x, pieces[..|pieces| - 1]), x, pieces[|pieces| - 1])
  }

  /** Column `x` holds no piece. */
  predicate EmptyColumn(g: Board, x: int)
    requires WellFormed(g) && 0 <= x < DefaultWidth
  {
    forall y :: 0 <= y < DefaultHeight ==> g[y][x] == Empty
  }

  /**
   * Column `x` of `r` holds `pieces` stacked from the bottom row up (the
   * k-th piece, counting from 0, in row `DefaultHeight - 1 - k`), with empty
   * cells above them, and every other column of `r` is as in `g`.
   */
  predicate Stacked(g: Board, r: Board, x: int, pieces: seq<Cell>)
    requires WellFormed(g) && WellFormed(r) && 0 <= x < DefaultWidth && |pieces| <= DefaultHeight
  {
    (forall k :: 0 <= k < |pieces| ==> r[DefaultHeight - 1 - k][x] == pieces[k]) &&
    (forall y :: 0 <= y < DefaultHeight - |pieces| ==> r[y][x] == Empty) &&
    (forall y, x' :: 0 <= y < DefaultHeight && 0 <= x' < DefaultWidth && x' != x ==> r[y][x'] == g[y][x'])
  }

  /** Above a stack of `n` pieces, the next piece lands in row `DefaultHeight - 1 - n`. */
  lemma StackedLandingRow(g: Board, r: Board, x: int, pieces: seq<Cell>)
    requires WellFormed(g) && WellFormed(r) && 0 <= x < DefaultWidth && |pieces| <= DefaultHeight
    requires forall i :: 0 <= i < |pieces| ==> pieces[i] != Empty
    requires Stacked(g, r, x, pieces)
    ensures |pieces| < DefaultHeight ==> LandingRow(r, x) == Some(DefaultHeight - 1 - |pieces|)
    ensures |pieces| == DefaultHeight ==> LandingRow(r, x).None?
  {
    var top := DefaultHeight - 1 - |pieces|;
    if |pieces| < DefaultHeight {
      assert r[top][x] == Empty;
      forall y | top < y < DefaultHeight ensures r[y][x] != Empty {
        var k := DefaultHeight - 1 - y;
        assert r[DefaultHeight - 1 - k][x] == pieces[k];
      }
    } else {
      forall y | 0 <= y < DefaultHeight ensures r[y][x] != Empty {
        assert r[DefaultHeight - 1 - (DefaultHeight - 1 - y)][x] == pieces[DefaultHeight - 1 - y];
      }
    }
  }

  /** One more piece placed just above a stack extends the stack. */
  lemma StackedPlace(g: Board, prev: Board, x: int, pieces: seq<Cell>)
    requires WellFormed(g) && WellFormed(prev) && 0 <= x < DefaultWidth
    requires 0 < |pieces| <= DefaultHeight
    requires Stacked(g, prev, x, pieces[..|pieces| - 1])
    ensures Stacked(g, Place(prev, DefaultHeight - |pieces|, x, pieces[|pieces| - 1]), x, pieces)
  {
  }

  /**
   * Into a column that starts empty, the k-th piece (counting from 0) lands
   * in row `DefaultHeight - 1 - k`; the rows above stay empty, the next
   * piece would land just above, and no other column changes.
   */
  lemma {:induction false} ColumnFillsBottomUp(g: Board, x: int, pieces: seq<Cell>)
    requires WellFormed(g) && 0 <= x < DefaultWidth && EmptyColumn(g, x)
    requires |pieces| <= DefaultHeight
    requires forall i :: 0 <= i < |pieces| ==> pieces[i] != Empty
    ensures Stacked(g, DropAll(g, x, pieces), x, pieces)
    ensures |pieces| < DefaultHeight ==> LandingRow(DropAll(g, x, pieces), x) == Some(DefaultHeight - 1 - |pieces|)
    ensures |pieces| == DefaultHeight ==> LandingRow(DropAll(g, x, pieces), x).None?
    decreases |pieces|
  {
    if pieces != [] {
      var front := pieces[..|pieces| - 1];
      ColumnFillsBottomUp(g, x, front);
      StackedPlace(g, DropAll(g, x, front), x, pieces);
    }
    StackedLandingRow(g, DropAll(g, x, pieces), x, pieces);
  }

  /**
   * Four pieces of one player dropped into an empty column land in rows 5,
   * 4, 3 and 2, and make four in a row through the vertical run anchored at
   * row 2. Turns alternate in real play, so the sequence only arises with
   * the same player moving four times.
   */
  lemma FourInColumn(g: Board, x: int, p: int)
    requires WellFormed(g) && 0 <= x < DefaultWidth && EmptyColumn(g, x) && IsPlayer(p)
    ensures var c := PieceOf(p); var r := DropAll(g, x, [c, c, c, c]);
      r[5][x] == c && r[4][x] == c && r[3][x] == c && r[2][x] == c &&
      r[1][x] == Empty && r[0][x] == Empty && Win(r, Vert(2, x), p) && HasWin(r, p)
  {
    var c := PieceOf(p);
    var pieces := [c, c, c, c];
    var r := DropAll(g, x, pieces);
    ColumnFillsBottomUp(g, x, pieces);
    assert r[5][x] == c && r[4][x] == c && r[3][x] == c && r[2][x] == c by {
      assert r[5][x] == pieces[0] && r[4][x] == pieces[1] && r[3][x] == pieces[2] && r[2][x] == pieces[3];
    }
    var run := Vert(2, x);
    forall i | 0 <= i < 4 ensures InBounds(run[i]) && r[run[i].0][run[i].1] == c {
      assert run[i] == (2 + i, x);
    }
    assert WinAt(r, p, 2, x);
  }

  /** After three such drops the fourth lands in row 2 and is reported as a win. */
  lemma FourthDropWins(g: Board, x: int, p: int)
    requires WellFormed(g) && 0 <= x < DefaultWidth && EmptyColumn(g, x) && IsPlayer(p)
    ensures var c := PieceOf(p); var three := DropAll(g, x, [c, c, c]);
      LandingRow(three, x) == Some(2) && Step(three, p, x).outcome == Won(p)
  {
    var c := PieceOf(p);
    var pieces := [c, c, c, c];
    var three := DropAll(g, x, [c, c, c]);
    assert pieces[..3] == [c, c, c];
    ColumnFillsBottomUp(g, x, [c, c, c]);
    FourInColumn(g, x, p);
    assert DropAll(g, x, pieces) == Place(three, 2, x, c);
    StepOutcome(three, p, x);
  }

  /** A player with no piece on the board has no four in a row. */
  lemma NoPieceNoWin(g: Board, p: int)
    requires WellFormed(g) && IsPlayer(p)
    requires forall y, x :: 0 <= y < DefaultHeight && 0 <= x < DefaultWidth ==> g[y][x] != PieceOf(p)
    ensures !HasWin(g, p)
  {
    forall y, x | 0 <= y < DefaultHeight && 0 <= x < DefaultWidth ensures !WinAt(g, p, y, x) {
      assert Horiz(y, x)[0] == Vert(y, x)[0] == DiagDR(y, x)[0] == DiagDL(y, x)[0] == (y, x);
    }
  }

  /** Player 2 holding (5, 0), (4, 1), (3, 2) and (2, 3), on an otherwise empty board. */
  function RisingDiagonal(): Board {
    Place(Place(Place(Place(EmptyBoard(), 5, 0, P2), 4, 1, P2), 3, 2, P2), 2, 3, P2)
  }

  /**
   * A rising diagonal is a win for player 2. The scan finds it through the
   * down-left run anchored at its top cell (2, 3); the down-right run from
   * its bottom cell (5, 0) leaves the board and does not match.
   */
  lemma DiagonalWin()
    ensures Win(RisingDiagonal(), DiagDL(2, 3), 2)
    ensures !Win(RisingDiagonal(), DiagDR(5, 0), 2)
    ensures HasWin(RisingDiagonal(), 2) && !HasWin(RisingDiagonal(), 1)
  {
    var g := RisingDiagonal();
    assert WinAt(g, 2, 2, 3);
    assert !InBounds(DiagDR(5, 0)[1]);
    NoPieceNoWin(g, 1);
  }
}
