/**
  The board of the 2048 engine as a value: a square grid of cells, the
  four moves expressed through the line kernel, the empty-cell list a new
  tile is chosen from, and the test for whether any move is left.

  Every move is one canonical slide of lines toward their front. `Lines`
  turns the board into the lines a direction slides (rows, reversed rows,
  columns, reversed columns) and `Restore` turns slid lines back into a
  board; the two are inverse to each other (`RestoreLines`, `LinesRestore`).
*/
module Board {
  import opened Line

  /** Rows of cells; row `i`, column `j` is `b[i][j]`. */
  type Grid = seq<seq<int>>

  /** Every row of `b` has `m` cells. */
  predicate Rect(b: Grid, m: nat)
  {
    forall i :: 0 <= i < |b| ==> |b[i]| == m
  }

  predicate IsSquare(b: Grid)
  {
    Rect(b, |b|)
  }

  /** `b` is an `n` by `n` board. */
  predicate IsBoard(b: Grid, n: nat)
  {
    |b| == n && IsSquare(b)
  }

  /** Every cell of `b` is empty or a tile 2, 4, 8, ... */
  predicate TilesOnly(b: Grid)
  {
    forall i :: 0 <= i < |b| ==> AllTiles(b[i])
  }

  /** The `n` by `n` board with no tile on it. */
  function EmptyBoard(n: nat): Grid
  {
    seq(n, _ => Zeros(n))
  }

  // ---------------------------------------------------------------------
  // Totals
  // ---------------------------------------------------------------------

  /** Total value of all cells of a board. */
  function Total(b: Grid): int
  {
    if b == [] then 0 else Sum(b[0]) + Total(b[1..])
  }

  /** Number of tiles (non-empty cells) on a board. */
  function TileCount(b: Grid): nat
  {
    if b == [] then 0 else |NonZero(b[0])| + TileCount(b[1..])
  }

  /** Boards whose rows have pairwise equal sums have equal totals. */
  lemma {:induction false} TotalRowwise(a: Grid, b: Grid)
    requires |a| == |b|
    requires forall i :: 0 <= i < |a| ==> Sum(a[i]) == Sum(b[i])
    ensures Total(a) == Total(b)
  {
    if a != [] {
      TotalRowwise(a[1..], b[1..]);
    }
  }

  // ---------------------------------------------------------------------
  // Reversal and transposition
  // ---------------------------------------------------------------------

  /** Every row read back to front. */
  function ReverseEach(b: Grid): Grid
  {
    seq(|b|, i requires 0 <= i < |b| => Reverse(b[i]))
  }

  /** Column `j` of `b`, top to bottom. */
  function Column(b: Grid, j: nat): seq<int>
    requires forall i :: 0 <= i < |b| ==> j < |b[i]|
  {
    seq(|b|, i requires 0 <= i < |b| => b[i][j])
  }

  /** The first `m` columns of `b`, each as a row. */
  function Columns(b: Grid, m: nat): Grid
    requires Rect(b, m)
  {
    seq(m, j requires 0 <= j < m => Column(b, j))
  }

  /** Rows become columns: `Transpose(b)[j][i] == b[i][j]`. */
  function Transpose(b: Grid): Grid
    requires IsSquare(b)
  {
    Columns(b, |b|)
  }

  /** Every row with its first cell dropped. */
  function Tails(b: Grid): Grid
    requires forall i :: 0 <= i < |b| ==> |b[i]| > 0
  {
    seq(|b|, i requires 0 <= i < |b| => b[i][1..])
  }

  lemma ReverseEachInvolution(b: Grid)
    ensures ReverseEach(ReverseEach(b)) == b
  {
    forall i | 0 <= i < |b|
      ensures ReverseEach(ReverseEach(b))[i] == b[i]
    {
      ReverseInvolution(b[i]);
    }
  }

  lemma TransposeInvolution(b: Grid)
    requires IsSquare(b)
    ensures IsSquare(Transpose(b))
    ensures Transpose(Transpose(b)) == b
  {
    var t := Transpose(b);
    forall i | 0 <= i < |b|
      ensures Transpose(t)[i] == b[i]
    {
      assert forall j :: 0 <= j < |b| ==> Transpose(t)[i][j] == b[i][j];
    }
  }

  lemma {:induction false} TotalOfEmptyRows(b: Grid)
    requires Rect(b, 0)
    ensures Total(b) == 0
  {
    if b != [] {
      assert b[0] == [];
      TotalOfEmptyRows(b[1..]);
    }
  }

  /** The total is the first column's sum plus the total of the rest. */
  lemma {:induction false} TotalSplitFirstColumn(b: Grid, m: nat)
    requires m > 0 && Rect(b, m)
    ensures Total(b) == Sum(Column(b, 0)) + Total(Tails(b))
  {
    if b != [] {
      TotalSplitFirstColumn(b[1..], m);
      assert Column(b, 0)[1..] == Column(b[1..], 0);
      assert Tails(b)[1..] == Tails(b[1..]);
      assert Sum(b[0]) == b[0][0] + Sum(b[0][1..]);
    }
  }

  lemma {:induction false} TotalColumns(b: Grid, m: nat)
    requires Rect(b, m)
    ensures Total(Columns(b, m)) == Total(b)
    decreases m
  {
    if m == 0 {
      TotalOfEmptyRows(b);
    } else {
      var tails := Tails(b);
      assert Rect(tails, m - 1);
      forall j | 0 <= j < m - 1
        ensures Column(b, j + 1) == Column(tails, j)
      {
      }
      assert Columns(b, m)[1..] == Columns(tails, m - 1);
      TotalColumns(tails, m - 1);
      TotalSplitFirstColumn(b, m);
    }
  }

  /** Transposing a board moves its cells but keeps its total. */
  lemma TotalTranspose(b: Grid)
    requires IsSquare(b)
    ensures Total(Transpose(b)) == Total(b)
  {
    TotalColumns(b, |b|);
  }

  lemma TotalReverseEach(b: Grid)
    ensures Total(ReverseEach(b)) == Total(b)
  {
    forall i | 0 <= i < |b|
      ensures Sum(ReverseEach(b)[i]) == Sum(b[i])
    {
      ReverseSum(b[i]);
    }
    TotalRowwise(ReverseEach(b), b);
  }

  // ---------------------------------------------------------------------
  // Sliding every line
  // ---------------------------------------------------------------------

  /** Every row slid toward its front. */
  function SlideAll(b: Grid): Grid
  {
    seq(|b|, i requires 0 <= i < |b| => SlideLeft(b[i]))
  }

  /** The points scored by sliding the first `k` rows. */
  function GainSum(b: Grid, k: nat): int
    requires k <= |b|
  {
    if k == 0 then 0 else GainSum(b, k - 1) + SlideGain(b[k - 1])
  }

  lemma SlideAllShape(b: Grid)
    requires IsSquare(b)
    ensures IsBoard(SlideAll(b), |b|)
  {
    forall i | 0 <= i < |b|
      ensures |SlideAll(b)[i]| == |b|
    {
      SlideLeftShape(b[i]);
    }
  }

  lemma SlideAllTotal(b: Grid)
    ensures Total(SlideAll(b)) == Total(b)
  {
    forall i | 0 <= i < |b|
      ensures Sum(SlideAll(b)[i]) == Sum(b[i])
    {
      SlideLeftSum(b[i]);
    }
    TotalRowwise(SlideAll(b), b);
  }

  lemma SlideAllTiles(b: Grid)
    requires TilesOnly(b)
    ensures TilesOnly(SlideAll(b))
  {
    forall i | 0 <= i < |b|
      ensures AllTiles(SlideAll(b)[i])
    {
      SlideLeftTiles(b[i]);
    }
  }

  lemma {:induction false} GainSumNonNegative(b: Grid, k: nat)
    requires k <= |b| && TilesOnly(b)
    ensures GainSum(b, k) >= 0
  {
    if k > 0 {
      GainSumNonNegative(b, k - 1);
      SlideLeftTiles(b[k - 1]);
    }
  }

  /** Gains that are never negative only add up to zero if each is zero. */
  lemma {:induction false} GainSumZero(b: Grid, k: nat)
    requires k <= |b| && TilesOnly(b) && GainSum(b, k) == 0
    ensures forall i :: 0 <= i < k ==> SlideGain(b[i]) == 0
  {
    if k > 0 {
      GainSumNonNegative(b, k - 1);
      SlideLeftTiles(b[k - 1]);
      GainSumZero(b, k - 1);
    }
  }

  // ---------------------------------------------------------------------
  // Directions
  // ---------------------------------------------------------------------

  /** The four directions a move names; any other string moves nothing. */
  predicate IsDirection(d: string)
  {
    d == "left" || d == "right" || d == "up" || d == "down"
  }

  /** The lines a move in direction `d` slides toward their front. */
  function Lines(b: Grid, d: string): Grid
    requires IsSquare(b)
  {
    if d == "right" then ReverseEach(b)
    else if d == "up" then Transpose(b)
    else if d == "down" then ReverseEach(Transpose(b))
    else b
  }

  /** The board whose lines in direction `d` are `x`. */
  function Restore(x: Grid, d: string): Grid
    requires IsSquare(x)
  {
    if d == "right" then ReverseEach(x)
    else if d == "up" then Transpose(x)
    else if d == "down" then Transpose(ReverseEach(x))
    else x
  }

  /** The board after a move in direction `d`; it has the size of `b`. */
  function Moved(b: Grid, d: string): (r: Grid)
    requires IsSquare(b)
    ensures IsBoard(r, |b|)
  {
    if IsDirection(d) then
      LinesShape(b, d);
      SlideAllShape(Lines(b, d));
      RestoreShape(SlideAll(Lines(b, d)), d);
      Restore(SlideAll(Lines(b, d)), d)
    else b
  }

  /** The points a move in direction `d` scores, summed over its lines. */
  function MoveGain(b: Grid, d: string): int
    requires IsSquare(b)
  {
    if IsDirection(d) then GainSum(Lines(b, d), |b|) else 0
  }

  lemma TransposeShape(b: Grid)
    requires IsSquare(b)
    ensures IsBoard(Transpose(b), |b|)
    ensures TilesOnly(b) ==> TilesOnly(Transpose(b))
    ensures Total(Transpose(b)) == Total(b)
  {
    TotalTranspose(b);
    if TilesOnly(b) {
      TransposeTiles(b);
    }
  }

  /** The transpose of a board of tiles is a board of tiles. */
  lemma TransposeTiles(b: Grid)
    requires IsSquare(b) && TilesOnly(b)
    ensures TilesOnly(Transpose(b))
  {
    forall j | 0 <= j < |b|
      ensures AllTiles(Transpose(b)[j])
    {
      assert forall i :: 0 <= i < |b| ==> Transpose(b)[j][i] == b[i][j];
    }
  }

  lemma ReverseEachShape(b: Grid)
    requires IsSquare(b)
    ensures IsBoard(ReverseEach(b), |b|)
    ensures TilesOnly(b) ==> TilesOnly(ReverseEach(b))
    ensures Total(ReverseEach(b)) == Total(b)
  {
    TotalReverseEach(b);
  }

  lemma LinesShape(b: Grid, d: string)
    requires IsSquare(b)
    ensures IsBoard(Lines(b, d), |b|)
    ensures TilesOnly(b) ==> TilesOnly(Lines(b, d))
    ensures Total(Lines(b, d)) == Total(b)
  {
    if d == "right" {
      ReverseEachShape(b);
    } else if d == "up" {
      TransposeShape(b);
    } else if d == "down" {
      TransposeShape(b);
      ReverseEachShape(Transpose(b));
    }
  }

  lemma RestoreShape(x: Grid, d: string)
    requires IsSquare(x)
    ensures IsBoard(Restore(x, d), |x|)
    ensures TilesOnly(x) ==> TilesOnly(Restore(x, d))
    ensures Total(Restore(x, d)) == Total(x)
  {
    if d == "right" {
      ReverseEachShape(x);
    } else if d == "up" {
      TransposeShape(x);
    } else if d == "down" {
      ReverseEachShape(x);
      TransposeShape(ReverseEach(x));
    }
  }

  /** Restoring the lines of a board gives the board back. */
  lemma RestoreLines(b: Grid, d: string)
    requires IsSquare(b)
    ensures Restore(Lines(b, d), d) == b
  {
    ReverseEachInvolution(b);
    TransposeInvolution(b);
    ReverseEachInvolution(Transpose(b));
  }

  /** Taking the lines of a restored board gives the lines back. */
  lemma LinesRestore(x: Grid, d: string)
    requires IsSquare(x)
    ensures Lines(Restore(x, d), d) == x
  {
    ReverseEachInvolution(x);
    TransposeInvolution(x);
    TransposeInvolution(ReverseEach(x));
  }

  /**
    A move keeps the board `n` by `n`, keeps every cell a tile or empty,
    keeps the total tile value, and scores no negative points.
  */
  lemma MovedInvariants(b: Grid, d: string)
    requires IsSquare(b)
    ensures IsBoard(Moved(b, d), |b|)
    ensures Total(Moved(b, d)) == Total(b)
    ensures TilesOnly(b) ==> TilesOnly(Moved(b, d)) && MoveGain(b, d) >= 0
  {
    MovedTotal(b, d);
    if TilesOnly(b) {
      MovedTiles(b, d);
    }
  }

  /** A move neither creates nor destroys tile value. */
  lemma MovedTotal(b: Grid, d: string)
    requires IsSquare(b)
    ensures Total(Moved(b, d)) == Total(b)
  {
    if IsDirection(d) {
      var lines := Lines(b, d);
      LinesShape(b, d);
      SlideAllShape(lines);
      SlideAllTotal(lines);
      RestoreShape(SlideAll(lines), d);
    }
  }

  /** A move of a board of tiles gives a board of tiles and scores no negative points. */
  lemma MovedTiles(b: Grid, d: string)
    requires IsSquare(b) && TilesOnly(b)
    ensures TilesOnly(Moved(b, d))
    ensures MoveGain(b, d) >= 0
  {
    if IsDirection(d) {
      var lines := Lines(b, d);
      LinesShape(b, d);
      SlideAllShape(lines);
      RestoreShape(SlideAll(lines), d);
      SlideAllTiles(lines);
      GainSumNonNegative(lines, |b|);
    }
  }

  /**
    What a move does line by line: a left move slides every row, a right
    move slides every reversed row, an up move slides every column and a
    down move every reversed column.
  */
  lemma MovedLines(b: Grid, i: nat)
    requires IsSquare(b) && i < |b|
    ensures Moved(b, "left")[i] == SlideLeft(b[i])
    ensures Moved(b, "right")[i] == Reverse(SlideLeft(Reverse(b[i])))
    ensures Column(Moved(b, "up"), i) == SlideLeft(Column(b, i))
    ensures Column(Moved(b, "down"), i) == Reverse(SlideLeft(Reverse(Column(b, i))))
  {
  }

  /** A move that left the board as it was scored nothing. */
  lemma UnchangedMoveScoresNothing(b: Grid, d: string)
    requires IsSquare(b) && TilesOnly(b)
    requires Moved(b, d) == b
    ensures MoveGain(b, d) == 0
  {
    if IsDirection(d) {
      var lines := Lines(b, d);
      var slid := SlideAll(lines);
      LinesShape(b, d);
      LinesRestore(slid, d);
      assert slid == lines;
      forall i | 0 <= i < |b|
        ensures SlideGain(lines[i]) == 0
      {
        assert slid[i] == SlideLeft(lines[i]);
        SlideGainChanges(lines[i]);
      }
      GainSumZeroOfRows(lines, |b|);
    }
  }

  /**
    Repeating a move on its own result changes nothing once the repeat
    scores nothing: the move is idempotent when no merge is left.
  */
  lemma MoveIdempotent(b: Grid, d: string)
    requires IsSquare(b) && TilesOnly(b)
    requires MoveGain(Moved(b, d), d) == 0
    ensures Moved(Moved(b, d), d) == Moved(b, d)
  {
    if IsDirection(d) {
      var lines := Lines(b, d);
      var slid := SlideAll(lines);
      LinesShape(b, d);
      SlideAllTiles(lines);
      LinesRestore(slid, d);
      assert Lines(Moved(b, d), d) == slid;
      assert MoveGain(Moved(b, d), d) == GainSum(slid, |b|);
      GainSumZero(slid, |b|);
      forall i | 0 <= i < |b|
        ensures SlideAll(slid)[i] == slid[i]
      {
        assert slid[i] == SlideLeft(lines[i]);
        assert SlideGain(slid[i]) == 0;
        SlideLeftIdempotent(lines[i]);
      }
      assert SlideAll(slid) == slid;
    }
  }

  // ---------------------------------------------------------------------
  // The terminal-state test
  // ---------------------------------------------------------------------

  /** Some cell of `b` is empty. */
  predicate HasEmpty(b: Grid)
  {
    exists i, j :: 0 <= i < |b| && 0 <= j < |b[i]| && b[i][j] == 0
  }

  /** Cell `(r, c)` equals its right neighbour. */
  predicate HorizontalPair(b: Grid, r: nat, c: nat)
    requires r < |b| && c + 1 < |b[r]|
  {
    b[r][c] == b[r][c + 1]
  }

  /** Cell `(r, c)` equals the cell below it. */
  predicate VerticalPair(b: Grid, r: nat, c: nat)
    requires r + 1 < |b| && c < |b[r]| && c < |b[r + 1]|
  {
    b[r][c] == b[r + 1][c]
  }

  /** Two horizontally or two vertically adjacent cells of `b` are equal. */
  predicate HasEqualNeighbours(b: Grid)
    requires IsSquare(b)
  {
    || (exists i: nat, j: nat :: i < |b| && j + 1 < |b| && HorizontalPair(b, i, j))
    || (exists i: nat, j: nat :: i + 1 < |b| && j < |b| && VerticalPair(b, i, j))
  }

  /** Some move can still be made: an empty cell or a pair that can merge. */
  predicate MovesAvailable(b: Grid)
    requires IsSquare(b)
  {
    HasEmpty(b) || HasEqualNeighbours(b)
  }

  /** Every line of `x` is full and has no equal neighbours. */
  predicate AllStuck(x: Grid)
  {
    forall i :: 0 <= i < |x| ==> NoZero(x[i]) && NoEqualNeighbours(x[i])
  }

  lemma StuckReverseEach(x: Grid)
    requires AllStuck(x)
    ensures AllStuck(ReverseEach(x))
  {
    forall i | 0 <= i < |x|
      ensures NoZero(ReverseEach(x)[i]) && NoEqualNeighbours(ReverseEach(x)[i])
    {
      var s := x[i];
      forall k | 0 <= k < |s| - 1
        ensures Reverse(s)[k] != Reverse(s)[k + 1]
      {
        assert Reverse(s)[k] == s[|s| - 2 - k + 1];
        assert Reverse(s)[k + 1] == s[|s| - 2 - k];
      }
    }
  }

  /** On a board with no move left, the lines of every direction are stuck. */
  lemma StuckLines(b: Grid, d: string)
    requires IsSquare(b) && !MovesAvailable(b)
    ensures AllStuck(Lines(b, d))
  {
    var n := |b|;
    forall i | 0 <= i < n
      ensures NoZero(b[i]) && NoEqualNeighbours(b[i])
    {
      forall k | 0 <= k < n - 1
        ensures b[i][k] != b[i][k + 1]
      {
        assert !HorizontalPair(b, i, k);
      }
    }
    assert AllStuck(b);
    var t := Transpose(b);
    forall j | 0 <= j < n
      ensures NoZero(t[j]) && NoEqualNeighbours(t[j])
    {
      assert forall k :: 0 <= k < n ==> t[j][k] == b[k][j];
      forall k | 0 <= k < n - 1
        ensures t[j][k] != t[j][k + 1]
      {
        assert !VerticalPair(b, k, j);
      }
    }
    assert AllStuck(t);
    StuckReverseEach(b);
    StuckReverseEach(t);
  }

  /**
    When no move is available, every direction leaves the board as it is
    and scores nothing.
  */
  lemma NoMovesMeansFixed(b: Grid, d: string)
    requires IsSquare(b) && !MovesAvailable(b)
    ensures Moved(b, d) == b
    ensures MoveGain(b, d) == 0
  {
    if IsDirection(d) {
      var lines := Lines(b, d);
      StuckLines(b, d);
      forall i | 0 <= i < |lines|
        ensures SlideAll(lines)[i] == lines[i] && SlideGain(lines[i]) == 0
      {
        SlideLeftFixed(lines[i]);
      }
      assert SlideAll(lines) == lines;
      LinesShape(b, d);
      RestoreLines(b, d);
      GainSumZeroOfRows(lines, |b|);
    }
  }

  lemma {:induction false} GainSumZeroOfRows(b: Grid, k: nat)
    requires k <= |b|
    requires forall i :: 0 <= i < k ==> SlideGain(b[i]) == 0
    ensures GainSum(b, k) == 0
  {
    if k > 0 {
      GainSumZeroOfRows(b, k - 1);
    }
  }

  lemma RestoreKeepsEmpty(x: Grid, d: string, i: nat, j: nat)
    requires IsSquare(x) && i < |x| && j < |x| && x[i][j] == 0
    ensures HasEmpty(Restore(x, d))
  {
    var n := |x|;
    var r := ReverseEach(x);
    assert r[i][n - 1 - j] == 0;
    assert Transpose(x)[j][i] == 0;
    assert Transpose(r)[n - 1 - j][i] == 0;
  }

  /** A move that changed the board always leaves a cell for a new tile. */
  lemma ChangedMoveLeavesEmptyCell(b: Grid, d: string)
    requires IsSquare(b)
    requires Moved(b, d) != b
    ensures HasEmpty(Moved(b, d))
  {
    if IsDirection(d) {
      var lines := Lines(b, d);
      var slid := SlideAll(lines);
      LinesShape(b, d);
      SlideAllShape(lines);
      RestoreLines(b, d);
      assert Moved(b, d) == Restore(slid, d);
      assert slid != lines;
      var i := DifferingRow(slid, lines);
      SlideLeavesEmptyCell(lines[i]);
      var j :| 0 <= j < |b| && slid[i][j] == 0;
      RestoreKeepsEmpty(slid, d, i, j);
    }
  }

  lemma DifferingRow(x: Grid, y: Grid) returns (i: nat)
    requires |x| == |y| && x != y
    ensures i < |x| && x[i] != y[i]
  {
    i :| 0 <= i < |x| && x[i] != y[i];
  }

  // ---------------------------------------------------------------------
  // Spawning a tile
  // ---------------------------------------------------------------------

  /** `p` is an empty cell of `b`. */
  predicate IsEmptyCell(b: Grid, p: (int, int))
  {
    0 <= p.0 < |b| && 0 <= p.1 < |b[p.0]| && b[p.0][p.1] == 0
  }

  /** The empty cells of row `r` from column `c` on, left to right. */
  function EmptyInRow(row: seq<int>, r: int, c: nat): seq<(int, int)>
    decreases |row| - c
  {
    if c >= |row| then []
    else (if row[c] == 0 then [(r, c)] else []) + EmptyInRow(row, r, c + 1)
  }

  /** The empty cells of rows `r` and below, in row-major order. */
  function EmptyRows(b: Grid, r: nat): seq<(int, int)>
    decreases |b| - r
  {
    if r >= |b| then [] else EmptyInRow(b[r], r, 0) + EmptyRows(b, r + 1)
  }

  /** The empty cells of the board in row-major order. */
  function EmptyCells(b: Grid): seq<(int, int)>
  {
    EmptyRows(b, 0)
  }

  lemma {:induction false} EmptyInRowExact(row: seq<int>, r: int, c: nat, p: (int, int))
    ensures p in EmptyInRow(row, r, c) <==> p.0 == r && c <= p.1 < |row| && row[p.1] == 0
    decreases |row| - c
  {
    if c < |row| {
      EmptyInRowExact(row, r, c + 1, p);
    }
  }

  lemma {:induction false} EmptyRowsExact(b: Grid, r: nat, p: (int, int))
    ensures p in EmptyRows(b, r) <==> r <= p.0 && IsEmptyCell(b, p)
    decreases |b| - r
  {
    if r < |b| {
      EmptyInRowExact(b[r], r, 0, p);
      EmptyRowsExact(b, r + 1, p);
    }
  }

  /**
    The empty-cell list holds exactly the empty cells of the board, so it
    is empty exactly when the board is full.
  */
  lemma EmptyCellsExact(b: Grid)
    ensures forall p :: p in EmptyCells(b) <==> IsEmptyCell(b, p)
    ensures EmptyCells(b) == [] <==> !HasEmpty(b)
  {
    forall p
      ensures p in EmptyCells(b) <==> IsEmptyCell(b, p)
    {
      EmptyRowsExact(b, 0, p);
    }
    if HasEmpty(b) {
      var i, j :| 0 <= i < |b| && 0 <= j < |b[i]| && b[i][j] == 0;
      assert IsEmptyCell(b, (i, j));
    }
    if EmptyCells(b) != [] {
      var p := EmptyCells(b)[0];
      assert p in EmptyCells(b);
      assert b[p.0][p.1] == 0;
    }
  }

  lemma {:induction false} EmptyInRowCount(row: seq<int>, r: int, c: nat)
    requires c <= |row|
    ensures |EmptyInRow(row, r, c)| + |NonZero(row[c..])| == |row| - c
    decreases |row| - c
  {
    if c < |row| {
      assert row[c..][1..] == row[c + 1..];
      EmptyInRowCount(row, r, c + 1);
    }
  }

  lemma {:induction false} EmptyRowsCount(b: Grid, n: nat, r: nat)
    requires Rect(b, n) && r <= |b|
    ensures |EmptyRows(b, r)| + TileCount(b[r..]) == n * (|b| - r)
    decreases |b| - r
  {
    if r < |b| {
      assert b[r..][1..] == b[r + 1..];
      assert b[r] == b[r][0..];
      EmptyInRowCount(b[r], r, 0);
      EmptyRowsCount(b, n, r + 1);
      assert n * (|b| - r) == n + n * (|b| - (r + 1));
    }
  }

  /** On an `n` by `n` board, empty cells and tiles add up to `n * n`. */
  lemma EmptyCellsCount(b: Grid, n: nat)
    requires IsBoard(b, n)
    ensures |EmptyCells(b)| + TileCount(b) == n * n
  {
    EmptyRowsCount(b, n, 0);
    assert b[0..] == b;
  }

  lemma {:induction false} EmptyBoardFacts(n: nat)
    ensures IsBoard(EmptyBoard(n), n) && TilesOnly(EmptyBoard(n))
    ensures TileCount(EmptyBoard(n)) == 0 && Total(EmptyBoard(n)) == 0
    ensures |EmptyCells(EmptyBoard(n))| == n * n
  {
    EmptyRowsZero(EmptyBoard(n), n);
    EmptyCellsCount(EmptyBoard(n), n);
  }

  lemma {:induction false} EmptyRowsZero(b: Grid, n: nat)
    requires forall i :: 0 <= i < |b| ==> b[i] == Zeros(n)
    ensures TileCount(b) == 0 && Total(b) == 0
  {
    if b != [] {
      NonZeroZeros(n);
      SumZeros(n);
      EmptyRowsZero(b[1..], n);
    }
  }

  /** `b` with the cell `p` set to `v`. */
  function Place(b: Grid, p: (int, int), v: int): Grid
    requires 0 <= p.0 < |b| && 0 <= p.1 < |b[p.0]|
  {
    b[p.0 := b[p.0][p.1 := v]]
  }

  lemma {:induction false} SumUpdate(s: seq<int>, c: nat, v: int)
    requires c < |s|
    ensures Sum(s[c := v]) == Sum(s) - s[c] + v
  {
    if c > 0 {
      assert s[c := v][1..] == s[1..][c - 1 := v];
      SumUpdate(s[1..], c - 1, v);
    }
  }

  lemma {:induction false} NonZeroUpdate(s: seq<int>, c: nat, v: int)
    requires c < |s| && s[c] == 0 && v != 0
    ensures |NonZero(s[c := v])| == |NonZero(s)| + 1
  {
    if c > 0 {
      assert s[c := v][1..] == s[1..][c - 1 := v];
      NonZeroUpdate(s[1..], c - 1, v);
    } else {
      assert s[c := v][1..] == s[1..];
    }
  }

  lemma {:induction false} TotalUpdate(b: Grid, r: nat, x: seq<int>)
    requires r < |b|
    ensures Total(b[r := x]) == Total(b) - Sum(b[r]) + Sum(x)
    ensures TileCount(b[r := x]) == TileCount(b) - |NonZero(b[r])| + |NonZero(x)|
  {
    if r > 0 {
      assert b[r := x][1..] == b[1..][r - 1 := x];
      TotalUpdate(b[1..], r - 1, x);
    } else {
      assert b[r := x][1..] == b[1..];
    }
  }

  /**
    Placing a tile of value `v` on an empty cell adds one tile and adds `v`
    to the total, leaves every other cell as it was, and keeps the board
    square and made of tiles.
  */
  lemma PlaceOnEmpty(b: Grid, p: (int, int), v: int)
    requires IsSquare(b) && IsEmptyCell(b, p) && v != 0
    ensures IsBoard(Place(b, p, v), |b|)
    ensures TileCount(Place(b, p, v)) == TileCount(b) + 1
    ensures Total(Place(b, p, v)) == Total(b) + v
    ensures Place(b, p, v)[p.0][p.1] == v
    ensures forall i, j :: 0 <= i < |b| && 0 <= j < |b| && (i, j) != p ==> Place(b, p, v)[i][j] == b[i][j]
    ensures TilesOnly(b) && IsTile(v) ==> TilesOnly(Place(b, p, v))
  {
    PlaceCells(b, p, v);
    PlaceCounts(b, p, v);
  }

  /** Placement changes the one cell and keeps the board's shape and tiles. */
  lemma PlaceCells(b: Grid, p: (int, int), v: int)
    requires IsSquare(b) && IsEmptyCell(b, p)
    ensures IsBoard(Place(b, p, v), |b|)
    ensures Place(b, p, v)[p.0][p.1] == v
    ensures forall i, j :: 0 <= i < |b| && 0 <= j < |b| && (i, j) != p ==> Place(b, p, v)[i][j] == b[i][j]
    ensures TilesOnly(b) && IsTile(v) ==> TilesOnly(Place(b, p, v))
  {
    if TilesOnly(b) && IsTile(v) {
      assert AllTiles(b[p.0]);
    }
  }

  /** Placement on an empty cell adds one tile and its value. */
  lemma PlaceCounts(b: Grid, p: (int, int), v: int)
    requires IsEmptyCell(b, p) && v != 0
    ensures TileCount(Place(b, p, v)) == TileCount(b) + 1
    ensures Total(Place(b, p, v)) == Total(b) + v
  {
    SumUpdate(b[p.0], p.1, v);
    NonZeroUpdate(b[p.0], p.1, v);
    TotalUpdate(b, p.0, b[p.0][p.1 := v]);
  }

  /**
    A spawn: a board without an empty cell stays as it is; otherwise the
    empty cell at index `pick` of the row-major empty-cell list gets `v`.
  */
  function Spawned(b: Grid, pick: nat, v: int): Grid
    requires EmptyCells(b) == [] || pick < |EmptyCells(b)|
  {
    if EmptyCells(b) == [] then b
    else
      EmptyCellsExact(b);
      assert EmptyCells(b)[pick] in EmptyCells(b);
      Place(b, EmptyCells(b)[pick], v)
  }

  /** A spawn on a board with an empty cell adds one tile and its value. */
  lemma SpawnedCounts(b: Grid, pick: nat, v: int)
    requires IsSquare(b) && v != 0
    requires EmptyCells(b) == [] || pick < |EmptyCells(b)|
    ensures IsBoard(Spawned(b, pick, v), |b|)
    ensures EmptyCells(b) != [] ==>
      && TileCount(Spawned(b, pick, v)) == TileCount(b) + 1
      && Total(Spawned(b, pick, v)) == Total(b) + v
  {
    if EmptyCells(b) != [] {
      EmptyCellsExact(b);
      var p := EmptyCells(b)[pick];
      assert p in EmptyCells(b);
      PlaceCells(b, p, v);
      PlaceCounts(b, p, v);
    }
  }

  /**
    Two spawns on the empty `n` by `n` board leave two tiles when the board
    has at least two cells, one on a single cell and none on no cell.
  */
  lemma InitialCounts(n: nat, pick1: nat, v1: int, pick2: nat, v2: int)
    requires v1 != 0 && v2 != 0
    requires EmptyCells(EmptyBoard(n)) == [] || pick1 < |EmptyCells(EmptyBoard(n))|
    requires var first := Spawned(EmptyBoard(n), pick1, v1);
      EmptyCells(first) == [] || pick2 < |EmptyCells(first)|
    ensures var b := Spawned(Spawned(EmptyBoard(n), pick1, v1), pick2, v2);
      && TileCount(b) == (if n * n >= 2 then 2 else n * n)
      && Total(b) == (if n * n >= 2 then v1 + v2 else if n == 1 then v1 else 0)
  {
    var e := EmptyBoard(n);
    EmptyBoardFacts(n);
    SpawnedCounts(e, pick1, v1);
    var first := Spawned(e, pick1, v1);
    EmptyCellsCount(first, n);
    SpawnedCounts(first, pick2, v2);
    if n == 0 {
      assert EmptyCells(e) == [];
      assert EmptyCells(first) == [];
    } else if n == 1 {
      assert |EmptyCells(e)| == 1;
      assert TileCount(first) == 1;
      assert EmptyCells(first) == [];
    } else {
      SquareAtLeastDouble(n);
      assert |EmptyCells(first)| == n * n - 1;
    }
  }

  /** A side of two or more gives at least twice as many cells as the side. */
  lemma SquareAtLeastDouble(n: nat)
    requires n >= 2
    ensures n * n >= 2 * n
  {
    assert n * n == n * (n - 2) + 2 * n;
  }

  // ---------------------------------------------------------------------
  // Worked boards
  // ---------------------------------------------------------------------

  lemma EmptyLine()
    ensures SlideLeft([0, 0, 0, 0]) == [0, 0, 0, 0] && SlideGain([0, 0, 0, 0]) == 0
  {
    assert [0, 0, 0, 0] == Zeros(4);
    NonZeroZeros(4);
  }

  /** Two equal tiles at the left of the top row merge into one 4 worth 4 points. */
  lemma ScenarioMergeLeft()
    ensures var b := [[2, 2, 0, 0], [0, 0, 0, 0], [0, 0, 0, 0], [0, 0, 0, 0]];
      && IsSquare(b)
      && Moved(b, "left") == [[4, 0, 0, 0], [0, 0, 0, 0], [0, 0, 0, 0], [0, 0, 0, 0]]
      && MoveGain(b, "left") == 4
  {
    var b := [[2, 2, 0, 0], [0, 0, 0, 0], [0, 0, 0, 0], [0, 0, 0, 0]];
    EmptyLine();
    assert NonZero([2, 2, 0, 0]) == [2, 2] by {
      assert [2, 2, 0, 0] == [2, 2] + Zeros(2);
      NonZeroConcat([2, 2], Zeros(2));
      NonZeroZeros(2);
      NonZeroOfNoZero([2, 2]);
    }
    assert [2, 2][2..] == [];
    assert SlideLeft([2, 2, 0, 0]) == [4, 0, 0, 0];
    assert Moved(b, "left") == SlideAll(b);
    assert MoveGain(b, "left") == GainSum(b, 4);
  }

  /** A right move brings two 2s separated by a gap together at the right wall. */
  lemma ScenarioMergeRight()
    ensures var b := [[2, 0, 2, 0], [0, 0, 0, 0], [0, 0, 0, 0], [0, 0, 0, 0]];
      && IsSquare(b)
      && Moved(b, "right")[0] == [0, 0, 0, 4]
      && MoveGain(b, "right") == 4
  {
    var b := [[2, 0, 2, 0], [0, 0, 0, 0], [0, 0, 0, 0], [0, 0, 0, 0]];
    EmptyLine();
    assert Reverse([2, 0, 2, 0]) == [0, 2, 0, 2];
    assert Reverse([0, 0, 0, 0]) == [0, 0, 0, 0];
    assert NonZero([0, 2, 0, 2]) == [2, 2] by {
      assert [0, 2, 0, 2][1..] == [2, 0, 2];
      assert [2, 0, 2][1..] == [0, 2];
      assert [0, 2][1..] == [2];
    }
    assert [2, 2][2..] == [];
    assert SlideLeft([0, 2, 0, 2]) == [4, 0, 0, 0];
    assert Reverse([4, 0, 0, 0]) == [0, 0, 0, 4];
    assert Lines(b, "right") == [[0, 2, 0, 2], [0, 0, 0, 0], [0, 0, 0, 0], [0, 0, 0, 0]];
    assert MoveGain(b, "right") == GainSum(Lines(b, "right"), 4);
  }

  /** A lone tile already at the left wall does not move and scores nothing. */
  lemma ScenarioAtWall()
    ensures var b := [[2, 0, 0, 0], [0, 0, 0, 0], [0, 0, 0, 0], [0, 0, 0, 0]];
      && IsSquare(b)
      && Moved(b, "left") == b
      && MoveGain(b, "left") == 0
  {
    var b := [[2, 0, 0, 0], [0, 0, 0, 0], [0, 0, 0, 0], [0, 0, 0, 0]];
    EmptyLine();
    SlideSingleAtWall();
    assert Moved(b, "left") == SlideAll(b);
    assert MoveGain(b, "left") == GainSum(b, 4);
  }
}
