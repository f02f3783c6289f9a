/** The 2048 board as a value: an N×N grid of integers in which 0 is an
    empty cell and any other value is a tile, plus the board-level queries
    of Game2048 (empty cells, maximum tile) and the two rearrangements the
    move logic is built from (row reversal and transposition). */
module Boards {

  datatype Option<T> = None | Some(value: T)

  predicate Square(g: seq<seq<int>>) {
    forall i :: 0 <= i < |g| ==> |g[i]| == |g|
  }

  /** A board of any size N (the game uses N = 4); |b| is N. */
  type Board = g: seq<seq<int>> | Square(g) witness []

  /** A cell coordinate (row i, column j), as the (i, j) pairs of game.py. */
  datatype Cell = Cell(row: nat, col: nat)

  predicate InBoard(b: Board, c: Cell) {
    c.row < |b| && c.col < |b|
  }

  /** Row-major order on cells. */
  predicate Before(a: Cell, c: Cell) {
    a.row < c.row || (a.row == c.row && a.col < c.col)
  }

  predicate RowMajor(cs: seq<Cell>) {
    forall p, q :: 0 <= p < q < |cs| ==> Before(cs[p], cs[q])
  }

  // ---------------------------------------------------------------------
  // Tile values: powers of two

  function Pow2(k: nat): (r: int)
    ensures r >= 1
  {
    if k == 0 then 1 else 2 * Pow2(k - 1)
  }

  /** A tile is 2^k for some k >= 1. */
  predicate IsTile(v: int)
    decreases if v > 0 then v else 0
  {
    v == 2 || (v > 2 && v % 2 == 0 && IsTile(v / 2))
  }

  /** The value a cell may hold on a well-formed board. */
  predicate CellOk(v: int) {
    v == 0 || IsTile(v)
  }

  predicate AllTiles(g: seq<seq<int>>) {
    forall i, j :: 0 <= i < |g| && 0 <= j < |g[i]| ==> CellOk(g[i][j])
  }

  /** Integer base-2 logarithm, rounded down; 0 for values below 2. */
  function Log2(v: int): nat
    decreases if v > 0 then v else 0
  {
    if v < 2 then 0 else 1 + Log2(v / 2)
  }

  /** On a tile, Log2 is the exact exponent (what math.log2 computes). */
  lemma {:induction false} TileLog(v: int)
    requires IsTile(v)
    ensures Log2(v) >= 1 && Pow2(Log2(v)) == v
  {
    if v != 2 {
      TileLog(v / 2);
    }
  }

  /** The doubled tile produced by a merge is again a tile. */
  lemma DoubleTile(v: int)
    requires IsTile(v)
    ensures IsTile(2 * v) && 2 * v >= 4
  {
    assert (2 * v) / 2 == v;
  }

  /** Different tiles have different exponents. */
  lemma {:induction false} TileLogInjective(v: int, w: int)
    requires IsTile(v) && IsTile(w) && Log2(v) == Log2(w)
    ensures v == w
  {
    TileLog(v);
    TileLog(w);
  }

  // ---------------------------------------------------------------------
  // Rearrangements used by Game2048._move_right/_move_up/_move_down

  function RevRow(r: seq<int>): (s: seq<int>)
    ensures |s| == |r|
  {
    seq(|r|, k requires 0 <= k < |r| => r[|r| - 1 - k])
  }

  /** Reverse every row (row[::-1] for each row). */
  function Reverse(b: Board): (r: Board)
    ensures |r| == |b|
  {
    seq(|b|, i requires 0 <= i < |b| => RevRow(b[i]))
  }

  /** Column j of a board, top to bottom. */
  function Column(b: Board, j: nat): (c: seq<int>)
    requires j < |b|
    ensures |c| == |b|
  {
    seq(|b|, i requires 0 <= i < |b| => b[i][j])
  }

  /** Swap rows and columns (zip(*board) on a square board). */
  function Transpose(b: Board): (t: Board)
    ensures |t| == |b|
  {
    seq(|b|, j requires 0 <= j < |b| => Column(b, j))
  }

  lemma ReverseInvolution(b: Board)
    ensures Reverse(Reverse(b)) == b
  {
    var r := Reverse(Reverse(b));
    forall i | 0 <= i < |b|
      ensures r[i] == b[i]
    {
      assert forall j :: 0 <= j < |b| ==> r[i][j] == b[i][j];
    }
  }

  lemma TransposeInvolution(b: Board)
    ensures Transpose(Transpose(b)) == b
  {
    var t := Transpose(Transpose(b));
    forall i | 0 <= i < |b|
      ensures t[i] == b[i]
    {
      assert forall j :: 0 <= j < |b| ==> t[i][j] == b[i][j];
    }
  }

  lemma ReverseKeepsTiles(b: Board)
    requires AllTiles(b)
    ensures AllTiles(Reverse(b))
  {
  }

  lemma TransposeKeepsTiles(b: Board)
    requires AllTiles(b)
    ensures AllTiles(Transpose(b))
  {
  }

  // ---------------------------------------------------------------------
  // Queries of Game2048

  /** Empty cells of row r (row index i) at columns >= j, left to right. */
  function RowEmpties(r: seq<int>, i: nat, j: nat): (cs: seq<Cell>)
    decreases |r| - j
    ensures forall c :: c in cs <==> c.row == i && j <= c.col < |r| && r[c.col] == 0
    ensures RowMajor(cs)
  {
    if j >= |r| then []
    else (if r[j] == 0 then [Cell(i, j)] else []) + RowEmpties(r, i, j + 1)
  }

  /** Empty cells of rows >= i, in row-major order. */
  function EmptyFrom(b: Board, i: nat): (cs: seq<Cell>)
    decreases |b| - i
    ensures forall c :: c in cs <==> i <= c.row && InBoard(b, c) && b[c.row][c.col] == 0
    ensures RowMajor(cs)
  {
    if i >= |b| then []
    else
      var here, rest := RowEmpties(b[i], i, 0), EmptyFrom(b, i + 1);
      assert forall p, q :: 0 <= p < |here| && 0 <= q < |rest| ==> Before(here[p], rest[q]) by {
        forall p, q | 0 <= p < |here| && 0 <= q < |rest|
          ensures Before(here[p], rest[q])
        {
          assert here[p] in here && rest[q] in rest;
        }
      }
      here + rest
  }

  /** get_empty_cells: exactly the zero cells, each once, in row-major order. */
  function EmptyCells(b: Board): (cs: seq<Cell>)
    ensures forall c :: c in cs <==> InBoard(b, c) && b[c.row][c.col] == 0
    ensures RowMajor(cs)
  {
    EmptyFrom(b, 0)
  }

  /** Write v into cell c (board[i][j] = v). */
  function Place(b: Board, c: Cell, v: int): (r: Board)
    requires InBoard(b, c)
    ensures |r| == |b| && r[c.row][c.col] == v
    ensures forall i, j :: 0 <= i < |b| && 0 <= j < |b| && (i, j) != (c.row, c.col) ==> r[i][j] == b[i][j]
  {
    b[c.row := b[c.row][c.col := v]]
  }

  function Max(x: int, y: int): int {
    if x >= y then x else y
  }

  /** max(row): the largest value of a non-empty row. */
  function RowMax(r: seq<int>): (m: int)
    requires |r| >= 1
    ensures m in r
    ensures forall k :: 0 <= k < |r| ==> r[k] <= m
  {
    if |r| == 1 then r[0] else Max(RowMax(r[..|r| - 1]), r[|r| - 1])
  }

  /** The largest of the row maxima of rows 0 .. k-1. */
  function MaxOfRows(b: Board, k: nat): (m: int)
    requires 1 <= k <= |b|
    ensures exists i, j :: 0 <= i < k && 0 <= j < |b| && b[i][j] == m
    ensures forall i, j :: 0 <= i < k && 0 <= j < |b| ==> b[i][j] <= m
  {
    var last := b[k - 1];
    var rm := RowMax(last);
    assert exists j :: 0 <= j < |last| && last[j] == rm;
    if k == 1 then rm else Max(MaxOfRows(b, k - 1), rm)
  }

  /** get_max_tile: the largest cell value (max of an empty board raises). */
  function MaxTile(b: Board): (m: int)
    requires |b| >= 1
    ensures exists i, j :: 0 <= i < |b| && 0 <= j < |b| && b[i][j] == m
    ensures forall i, j :: 0 <= i < |b| && 0 <= j < |b| ==> b[i][j] <= m
  {
    MaxOfRows(b, |b|)
  }
}
