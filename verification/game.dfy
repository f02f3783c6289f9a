/** Game2048: the board and score of one game, updated in place. Each
    method is proved to leave the board equal to the move functions of
    module Moves applied to the board it started from. */
module Game {
  import opened Boards
  import opened Moves

  /** One draw of the random source used by add_random_tile: the position
      random.choice picks in the list of empty cells, and whether
      random.random() fell below 0.9 (a 2 rather than a 4). */
  datatype Draw = Draw(index: nat, two: bool)

  /** The draw names an empty cell whenever there is one. */
  predicate DrawFits(b: Board, d: Draw) {
    EmptyCells(b) != [] ==> d.index < |EmptyCells(b)|
  }

  /** The board after add_random_tile with the given draw. */
  function Spawned(b: Board, d: Draw): Board
    requires DrawFits(b, d)
  {
    var cells := EmptyCells(b);
    if cells == [] then b
    else
      assert cells[d.index] in cells;
      Place(b, cells[d.index], if d.two then 2 else 4)
  }

  /** [[0] * size for _ in range(size)] */
  function EmptyBoard(n: nat): (b: Board)
    ensures |b| == n && forall i, j :: 0 <= i < n && 0 <= j < n ==> b[i][j] == 0
  {
    seq(n, _ => Zeros(n))
  }

  /** add_random_tile writes a 2 or a 4 into exactly one cell that was
      empty and leaves every other cell alone; with no empty cell it
      changes nothing. Either way tiles stay powers of two. */
  lemma SpawnSpec(b: Board, d: Draw)
    requires DrawFits(b, d)
    ensures EmptyCells(b) == [] ==> Spawned(b, d) == b
    ensures EmptyCells(b) != [] ==>
              exists c :: InBoard(b, c) && b[c.row][c.col] == 0 &&
                (Spawned(b, d)[c.row][c.col] == 2 || Spawned(b, d)[c.row][c.col] == 4) &&
                forall i, j :: 0 <= i < |b| && 0 <= j < |b| && (i, j) != (c.row, c.col) ==>
                  Spawned(b, d)[i][j] == b[i][j]
    ensures |Spawned(b, d)| == |b|
    ensures AllTiles(b) ==> AllTiles(Spawned(b, d))
  {
    var cells := EmptyCells(b);
    if cells != [] {
      var c := cells[d.index];
      assert c in cells;
      var r := Spawned(b, d);
      assert InBoard(b, c) && b[c.row][c.col] == 0;
      assert r == Place(b, c, if d.two then 2 else 4);
      if AllTiles(b) {
        forall i, j | 0 <= i < |r| && 0 <= j < |r[i]|
          ensures CellOk(r[i][j])
        {
          if (i, j) != (c.row, c.col) {
            assert r[i][j] == b[i][j];
          }
        }
      }
    }
  }

  /** The merge scan inside _move_left: walk the compressed row once;
      equal neighbours become one doubled tile and the skip flag jumps over
      the consumed second tile, so each tile merges at most once. */
  method MergeScan(row: seq<int>) returns (merged: seq<int>, points: int)
    ensures merged == Merge(row)
    ensures points == MergePoints(row)
  {
    merged := [];
    points := 0;
    var skip := false;
    for j := 0 to |row|
      invariant skip ==> j < |row|
      invariant merged + Merge(row[(if skip then j + 1 else j)..]) == Merge(row)
      invariant points + MergePoints(row[(if skip then j + 1 else j)..]) == MergePoints(row)
    {
      if skip {
        skip := false;
      } else if j + 1 < |row| && row[j] == row[j + 1] {
        MergePairAt(row, j);
        AppendAssoc(merged, [row[j] * 2], Merge(row[j + 2..]));
        merged := merged + [row[j] * 2];
        points := points + row[j] * 2;
        skip := true;
      } else {
        MergeSingleAt(row, j);
        AppendAssoc(merged, [row[j]], Merge(row[j + 1..]));
        merged := merged + [row[j]];
      }
    }
    assert row[|row|..] == [];
  }

  /** One row of _move_left: compress, the merge scan, pad with zeros. */
  method SlideRowScan(row: seq<int>, n: nat) returns (slid: seq<int>, points: int)
    requires |row| <= n
    ensures slid == SlideRow(row, n)
    ensures points == MergePoints(Compress(row))
  {
    var compressed := Compress(row);
    var merged;
    merged, points := MergeScan(compressed);
    slid := merged + Zeros(n - |merged|);
  }

  /** The points of one more row. */
  lemma RowsPointsStep(rows: seq<seq<int>>, i: nat)
    requires i < |rows|
    ensures RowsPoints(rows[..i + 1]) == RowsPoints(rows[..i]) + MergePoints(Compress(rows[i]))
  {
    assert rows[..i + 1][..i] == rows[..i];
  }

  /** Two equal tiles at j merge into one doubled tile. */
  lemma MergePairAt(row: seq<int>, j: nat)
    requires j + 1 < |row| && row[j] == row[j + 1]
    ensures Merge(row[j..]) == [row[j] * 2] + Merge(row[j + 2..])
    ensures MergePoints(row[j..]) == row[j] * 2 + MergePoints(row[j + 2..])
  {
    assert row[j..][2..] == row[j + 2..];
  }

  /** A tile at j unlike its right neighbour is kept as it is. */
  lemma MergeSingleAt(row: seq<int>, j: nat)
    requires j < |row| && (j + 1 == |row| || row[j] != row[j + 1])
    ensures Merge(row[j..]) == [row[j]] + Merge(row[j + 1..])
    ensures MergePoints(row[j..]) == MergePoints(row[j + 1..])
  {
    assert row[j..][1..] == row[j + 1..];
  }

  lemma AppendAssoc(a: seq<int>, b: seq<int>, c: seq<int>)
    ensures a + (b + c) == (a + b) + c
  {
  }

  class Game2048 {
    var size: nat
    var board: seq<seq<int>>
    var score: int

    ghost predicate Valid()
      reads this
    {
      |board| == size && Square(board)
    }

    /** A new game: an empty size×size grid, score 0, then two spawns. */
    constructor (size: nat, first: Draw, second: Draw)
      requires DrawFits(EmptyBoard(size), first)
      requires DrawFits(Spawned(EmptyBoard(size), first), second)
      ensures Valid() && this.size == size && score == 0
      ensures board == Spawned(Spawned(EmptyBoard(size), first), second)
    {
      this.size := size;
      board := EmptyBoard(size);
      score := 0;
      new;
      var added := AddRandomTile(first);
      added := AddRandomTile(second);
    }

    method AddRandomTile(draw: Draw) returns (added: bool)
      requires Valid() && DrawFits(board, draw)
      modifies this
      ensures Valid() && size == old(size) && score == old(score)
      ensures added <==> EmptyCells(old(board)) != []
      ensures board == Spawned(old(board), draw)
    {
      var emptyCells := EmptyCells(board);
      if emptyCells != [] {
        var c := emptyCells[draw.index];
        assert c in emptyCells;
        board := board[c.row := board[c.row][c.col := if draw.two then 2 else 4]];
        return true;
      }
      return false;
    }

    /** A deep copy of board and score. The fresh game's own two spawned
        tiles are overwritten at once, so the draws it is given do not
        matter. */
    method Clone() returns (copy: Game2048)
      requires Valid()
      ensures fresh(copy) && copy.Valid()
      ensures copy.size == size && copy.board == board && copy.score == score
    {
      copy := new Game2048(size, Draw(0, true), Draw(0, true));
      copy.board := board;
      copy.score := score;
    }

    /** Attempt a move: 0 = UP, 1 = RIGHT, 2 = DOWN, 3 = LEFT, anything
        else does nothing. The score grows by the merge points only when the
        board changed. */
    method Move(direction: int) returns (moved: bool, points: int)
      requires Valid()
      modifies this
      ensures Valid() && size == old(size)
      ensures board == Slide(old(board), direction)
      ensures points == Points(old(board), direction)
      ensures moved <==> board != old(board)
      ensures score == if moved then old(score) + points else old(score)
      ensures !(0 <= direction < 4) ==> !moved && points == 0 && board == old(board)
    {
      var original := board;
      points := 0;
      if direction == UP {
        points := MoveUp();
      } else if direction == RIGHT {
        points := MoveRight();
      } else if direction == DOWN {
        points := MoveDown();
      } else if direction == LEFT {
        points := MoveLeft();
      }
      moved := original != board;
      if moved {
        score := score + points;
      }
    }

    /** Slide every row left: compress, merge equal neighbours once from the
        left (the skip flag), pad with zeros. */
    method MoveLeft() returns (points: int)
      requires Valid()
      modifies this
      ensures Valid() && size == old(size) && score == old(score)
      ensures board == SlideLeft(old(board))
      ensures points == LeftPoints(old(board))
    {
      ghost var start: Board := board;
      points := 0;
      for i := 0 to size
        invariant |board| == size && |start| == size && Square(board)
        invariant size == old(size) && score == old(score)
        invariant forall k :: 0 <= k < i ==> board[k] == SlideRow(start[k], size)
        invariant forall k :: i <= k < size ==> board[k] == start[k]
        invariant points == RowsPoints(start[..i])
      {
        var slid, rowPoints := SlideRowScan(board[i], size);
        RowsPointsStep(start, i);
        points := points + rowPoints;
        board := board[i := slid];
      }
      assert start[..size] == start;
    }

    /** Reverse, slide left, reverse back. */
    method MoveRight() returns (points: int)
      requires Valid()
      modifies this
      ensures Valid() && size == old(size) && score == old(score)
      ensures board == Slide(old(board), RIGHT)
      ensures points == Points(old(board), RIGHT)
    {
      ReverseBoard();
      points := MoveLeft();
      ReverseBoard();
    }

    /** Transpose, slide left, transpose back. */
    method MoveUp() returns (points: int)
      requires Valid()
      modifies this
      ensures Valid() && size == old(size) && score == old(score)
      ensures board == Slide(old(board), UP)
      ensures points == Points(old(board), UP)
    {
      TransposeBoard();
      points := MoveLeft();
      TransposeBoard();
    }

    /** Transpose, slide right, transpose back. */
    method MoveDown() returns (points: int)
      requires Valid()
      modifies this
      ensures Valid() && size == old(size) && score == old(score)
      ensures board == Slide(old(board), DOWN)
      ensures points == Points(old(board), DOWN)
    {
      TransposeBoard();
      points := MoveRight();
      TransposeBoard();
    }

    method TransposeBoard()
      requires Valid()
      modifies this
      ensures Valid() && size == old(size) && score == old(score)
      ensures board == Transpose(old(board))
    {
      board := Transpose(board);
    }

    method ReverseBoard()
      requires Valid()
      modifies this
      ensures Valid() && size == old(size) && score == old(score)
      ensures board == Reverse(old(board))
    {
      board := Reverse(board);
    }

    /** Try every direction on a clone and keep those that moved. The game
        itself is not touched (the method modifies nothing). */
    method GetAvailableMoves() returns (moves: seq<int>)
      requires Valid()
      ensures moves == LegalMoves(board)
    {
      moves := [];
      for direction := 0 to 4
        invariant moves == Flagged(Changes(board), direction)
      {
        var testGame := Clone();
        var moved, points := testGame.Move(direction);
        assert moved == Changes(board)[direction];
        if moved {
          moves := moves + [direction];
        }
      }
    }

    method IsGameOver() returns (over: bool)
      requires Valid()
      ensures over <==> GameOver(board)
    {
      var moves := GetAvailableMoves();
      over := |moves| == 0;
    }
  }
}
