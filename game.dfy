/**
  The 2048 engine object: a `size` by `size` board and a score, updated in
  place by its methods.

  The random choices of the engine are parameters here: `pick` is the index
  into the empty-cell list that the engine's uniform choice would return,
  and `value` the tile (2 or 4) its weighted coin would place.
*/
module Game {
  import opened Line
  import opened Board

  class Game2048 {
    /** The side length of the board (the configured SIZE). */
    const size: nat
    var board: Grid
    var score: int

    /** The board is `size` by `size`, holds only tiles, and the score is not negative. */
    ghost predicate Valid()
      reads this
    {
      IsBoard(board, size) && TilesOnly(board) && score >= 0
    }

    /** Every cell is empty, a 2 or a 4, as directly after a reset. */
    ghost predicate FreshCells()
      reads this
    {
      forall i, j :: 0 <= i < |board| && 0 <= j < |board[i]| ==>
        board[i][j] == 0 || board[i][j] == 2 || board[i][j] == 4
    }

    /** A new engine: an empty board of side `n`, score 0, then `InitGame`. */
    constructor (n: nat, pick1: nat, value1: int, pick2: nat, value2: int)
      requires value1 == 2 || value1 == 4
      requires value2 == 2 || value2 == 4
      requires EmptyCells(EmptyBoard(n)) == [] || pick1 < |EmptyCells(EmptyBoard(n))|
      requires var first := Spawned(EmptyBoard(n), pick1, value1);
        EmptyCells(first) == [] || pick2 < |EmptyCells(first)|
      ensures size == n && Valid() && FreshCells()
      ensures board == Spawned(Spawned(EmptyBoard(n), pick1, value1), pick2, value2)
      ensures score == 0
      ensures TileCount(board) == if n * n >= 2 then 2 else n * n
    {
      size := n;
      board := EmptyBoard(n);
      score := 0;
      new;
      EmptyBoardFacts(n);
      InitGame(pick1, value1, pick2, value2);
    }

    /**
      Resets the board and the score and spawns two tiles. On a board of
      side 2 or more exactly two cells then hold a tile, each a 2 or a 4.
    */
    method InitGame(pick1: nat, value1: int, pick2: nat, value2: int)
      requires value1 == 2 || value1 == 4
      requires value2 == 2 || value2 == 4
      requires EmptyCells(EmptyBoard(size)) == [] || pick1 < |EmptyCells(EmptyBoard(size))|
      requires var first := Spawned(EmptyBoard(size), pick1, value1);
        EmptyCells(first) == [] || pick2 < |EmptyCells(first)|
      modifies this`board, this`score
      ensures board == Spawned(Spawned(EmptyBoard(size), pick1, value1), pick2, value2)
      ensures Valid() && FreshCells()
      ensures score == 0
      ensures TileCount(board) == if size * size >= 2 then 2 else size * size
      ensures Total(board) == if size * size >= 2 then value1 + value2 else if size == 1 then value1 else 0
    {
      board := EmptyBoard(size);
      score := 0;
      EmptyBoardFacts(size);
      assert FreshCells() by {
        forall i, j | 0 <= i < |board| && 0 <= j < |board[i]|
          ensures board[i][j] == 0
        {
          assert board[i] == Zeros(size);
        }
      }
      AddNewTile(pick1, value1);
      AddNewTile(pick2, value2);
      InitialCounts(size, pick1, value1, pick2, value2);
    }

    /**
      Spawns a tile: nothing changes on a full board; otherwise the empty
      cell at index `pick` of the row-major empty-cell list becomes `value`
      and every other cell keeps its value.
    */
    method AddNewTile(pick: nat, value: int)
      requires IsBoard(board, size)
      requires value == 2 || value == 4
      requires EmptyCells(board) == [] || pick < |EmptyCells(board)|
      modifies this`board
      ensures IsBoard(board, size)
      ensures old(TilesOnly(board)) ==> TilesOnly(board)
      ensures old(FreshCells()) ==> FreshCells()
      ensures board == Spawned(old(board), pick, value)
      ensures EmptyCells(old(board)) == [] <==> !HasEmpty(old(board))
      ensures EmptyCells(old(board)) == [] ==> board == old(board)
      ensures EmptyCells(old(board)) != [] ==>
        var p := EmptyCells(old(board))[pick];
        && IsEmptyCell(old(board), p)
        && board[p.0][p.1] == value
        && (forall i, j :: 0 <= i < size && 0 <= j < size && (i, j) != p ==> board[i][j] == old(board)[i][j])
        && TileCount(board) == TileCount(old(board)) + 1
        && Total(board) == Total(old(board)) + value
    {
      var emptyTiles := EmptyCells(board);
      EmptyCellsExact(board);
      assert IsPowerOfTwo(2) && IsTile(value);
      if emptyTiles != [] {
        var cell := emptyTiles[pick];
        assert cell in emptyTiles;
        PlaceOnEmpty(board, cell, value);
        board := board[cell.0 := board[cell.0][cell.1 := value]];
      }
    }

    /**
      Slides one line of `size` cells toward its front and returns the
      points its merges score: compact, one front-to-back merge pass,
      compact again.
    */
    method SlideRowLeft(row: seq<int>) returns (newRow: seq<int>, points: int)
      requires |row| == size
      ensures newRow == SlideLeft(row)
      ensures points == SlideGain(row)
    {
      points := 0;
      newRow := NonZero(row);
      newRow := newRow + Zeros(size - |newRow|);
      ghost var compacted := newRow;
      var i := 0;
      while i < size - 1
        invariant 0 <= i && (i < size || i == 0)
        invariant |newRow| == size
        invariant PassFrom(newRow, i) == PassFrom(compacted, 0)
        invariant points + GainFrom(newRow, i) == GainFrom(compacted, 0)
      {
        if newRow[i] == newRow[i + 1] && newRow[i] != 0 {
          newRow := newRow[i := newRow[i] * 2];
          points := points + newRow[i];
          newRow := newRow[i + 1 := 0];
        }
        i := i + 1;
      }
      PassFromStart(compacted);
      SlideViaPass(row, newRow);
      newRow := NonZero(newRow);
      newRow := newRow + Zeros(size - |newRow|);
    }

    /** Slides every row of the board toward its front. */
    method SlideRows() returns (gained: int)
      requires IsBoard(board, size)
      modifies this`board
      ensures board == SlideAll(old(board))
      ensures gained == GainSum(old(board), size)
    {
      gained := 0;
      var i := 0;
      while i < size
        invariant 0 <= i <= size
        invariant |board| == size
        invariant forall k :: 0 <= k < i ==> board[k] == SlideLeft(old(board)[k])
        invariant forall k :: i <= k < size ==> board[k] == old(board)[k]
        invariant gained == GainSum(old(board), i)
      {
        var row, points := SlideRowLeft(board[i]);
        board := board[i := row];
        gained := gained + points;
        i := i + 1;
      }
    }

    /** Slides every row of the board toward its back: reverse, slide, reverse. */
    method SlideRowsReversed() returns (gained: int)
      requires IsBoard(board, size)
      modifies this`board
      ensures board == ReverseEach(SlideAll(ReverseEach(old(board))))
      ensures gained == GainSum(ReverseEach(old(board)), size)
    {
      gained := 0;
      var i := 0;
      while i < size
        invariant 0 <= i <= size
        invariant |board| == size
        invariant forall k :: 0 <= k < i ==> board[k] == Reverse(SlideLeft(Reverse(old(board)[k])))
        invariant forall k :: i <= k < size ==> board[k] == old(board)[k]
        invariant gained == GainSum(ReverseEach(old(board)), i)
      {
        board := board[i := Reverse(board[i])];
        var row, points := SlideRowLeft(board[i]);
        board := board[i := Reverse(row)];
        gained := gained + points;
        i := i + 1;
      }
    }

    /**
      Applies a move. Returns whether the board now differs from the board
      before the move; only then is the move's gain added to the score. A
      string other than "left", "right", "up" or "down" changes nothing.
    */
    method Move(direction: string) returns (changed: bool)
      requires Valid()
      modifies this`board, this`score
      ensures Valid()
      ensures board == Moved(old(board), direction)
      ensures changed == (board != old(board))
      ensures score == old(score) + (if changed then MoveGain(old(board), direction) else 0)
      ensures score == old(score) + MoveGain(old(board), direction)
      ensures !IsDirection(direction) ==> !changed && score == old(score)
    {
      var originalBoard := board;
      var gained := 0;
      ghost var target := Moved(originalBoard, direction);
      ghost var gain := MoveGain(originalBoard, direction);
      if direction == "left" {
        gained := SlideRows();
        assert board == target && gained == gain;
      } else if direction == "right" {
        gained := SlideRowsReversed();
        assert board == target && gained == gain;
      } else if direction == "up" {
        TransposeShape(board);
        board := Transpose(board);
        gained := SlideRows();
        SlideAllShape(Transpose(originalBoard));
        board := Transpose(board);
        assert board == target && gained == gain;
      } else if direction == "down" {
        TransposeShape(board);
        board := Transpose(board);
        gained := SlideRowsReversed();
        SlideAllShape(ReverseEach(Transpose(originalBoard)));
        ReverseEachShape(SlideAll(ReverseEach(Transpose(originalBoard))));
        board := Transpose(board);
        assert board == target && gained == gain;
      } else {
        assert board == target && gain == 0;
      }
      MovedInvariants(originalBoard, direction);
      changed := board != originalBoard;
      if changed {
        score := score + gained;
      } else {
        UnchangedMoveScoresNothing(originalBoard, direction);
      }
    }

    /**
      Whether any move is left: some cell is empty, or some horizontally or
      vertically adjacent pair is equal. Row `i` and column `i` are scanned
      together; nothing is modified.
    */
    method CheckMovesAvailable() returns (available: bool)
      requires IsBoard(board, size)
      ensures available == MovesAvailable(board)
    {
      if exists k :: 0 <= k < size && 0 in board[k] {
        var k :| 0 <= k < size && 0 in board[k];
        var c :| 0 <= c < size && board[k][c] == 0;
        assert HasEmpty(board);
        return true;
      }
      assert !HasEmpty(board);
      var i := 0;
      while i < size
        invariant 0 <= i <= size
        invariant forall r: nat, c: nat :: r < i && c + 1 < size ==> !HorizontalPair(board, r, c)
        invariant forall r: nat, c: nat :: r + 1 < size && c < i ==> !VerticalPair(board, r, c)
      {
        var j := 0;
        while j < size - 1
          invariant 0 <= j <= size - 1
          invariant forall c: nat :: c < j ==> !HorizontalPair(board, i, c)
          invariant forall r: nat :: r < j ==> !VerticalPair(board, r, i)
        {
          if board[i][j] == board[i][j + 1] || board[j][i] == board[j + 1][i] {
            assert HorizontalPair(board, i, j) || VerticalPair(board, j, i);
            return true;
          }
          j := j + 1;
        }
        i := i + 1;
      }
      return false;
    }

    /**
      One tick of play after a direction was chosen: move; if the board
      changed, spawn a tile and report whether the game is lost because no
      move is left.
    */
    method Tick(direction: string, pick: nat, value: int) returns (moved: bool, lost: bool)
      requires Valid()
      requires value == 2 || value == 4
      requires EmptyCells(Moved(board, direction)) == [] || pick < |EmptyCells(Moved(board, direction))|
      modifies this`board, this`score
      ensures Valid()
      ensures moved == (Moved(old(board), direction) != old(board))
      ensures !moved ==> board == old(board) && score == old(score) && !lost
      ensures moved ==> score == old(score) + MoveGain(old(board), direction)
      ensures moved ==> EmptyCells(Moved(old(board), direction)) != []
      ensures moved ==> board == Spawned(Moved(old(board), direction), pick, value)
      ensures var m := Moved(old(board), direction);
        moved && EmptyCells(m) != [] ==>
          var p := EmptyCells(m)[pick];
          && IsEmptyCell(m, p)
          && board[p.0][p.1] == value
          && (forall i, j :: 0 <= i < size && 0 <= j < size && (i, j) != p ==> board[i][j] == m[i][j])
      ensures moved ==> TileCount(board) == TileCount(Moved(old(board), direction)) + 1
      ensures moved ==> Total(board) == Total(old(board)) + value
      ensures lost == (moved && !MovesAvailable(board))
    {
      MovedInvariants(board, direction);
      moved := Move(direction);
      ghost var m := board;
      lost := false;
      if moved {
        ChangedMoveLeavesEmptyCell(old(board), direction);
        EmptyCellsExact(m);
        assert EmptyCells(m) != [];
        AddNewTile(pick, value);
        assert board == Spawned(m, pick, value);
        var available := CheckMovesAvailable();
        lost := !available;
      }
    }
  }
}
