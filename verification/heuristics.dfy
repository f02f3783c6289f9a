/** The board features of Heuristics and their weighted sum. Each feature
    that the source computes with an accumulator loop is a method proved
    equal to a specification function; the properties of the feature are
    lemmas about that function. log2 is the integer exponent (Boards.Log2),
    exact on the powers of two a game board holds. */
module Heuristics {
  import opened Boards
  import opened MoveLaws
  import opened Moves
  import opened Legality

  // ---------------------------------------------------------------------
  // empty_tiles

  /** Zero cells of r at positions >= j. */
  function RowZeros(r: seq<int>, j: nat): nat
    decreases |r| - j
  {
    if j >= |r| then 0 else (if r[j] == 0 then 1 else 0) + RowZeros(r, j + 1)
  }

  /** Zero cells of rows >= i. */
  function ZerosFrom(b: Board, i: nat): nat
    decreases |b| - i
  {
    if i >= |b| then 0 else RowZeros(b[i], 0) + ZerosFrom(b, i + 1)
  }

  lemma {:induction false} RowEmptiesCount(r: seq<int>, i: nat, j: nat)
    ensures |RowEmpties(r, i, j)| == RowZeros(r, j)
    decreases |r| - j
  {
    if j < |r| {
      RowEmptiesCount(r, i, j + 1);
    }
  }

  lemma {:induction false} EmptyFromCount(b: Board, i: nat)
    ensures |EmptyFrom(b, i)| == ZerosFrom(b, i)
    decreases |b| - i
  {
    if i < |b| {
      RowEmptiesCount(b[i], i, 0);
      EmptyFromCount(b, i + 1);
    }
  }

  /** empty_tiles: the number of zero cells, squared. That number is the
      length of get_empty_cells. */
  function EmptyTiles(b: Board): (r: nat)
    ensures r == |EmptyCells(b)| * |EmptyCells(b)|
  {
    EmptyFromCount(b, 0);
    var count := ZerosFrom(b, 0);
    count * count
  }

  lemma {:induction false} RowZerosAll(r: seq<int>, j: nat)
    requires j <= |r| && forall k :: 0 <= k < |r| ==> r[k] == 0
    ensures RowZeros(r, j) == |r| - j
    decreases |r| - j
  {
    if j < |r| {
      RowZerosAll(r, j + 1);
    }
  }

  lemma {:induction false} ZerosFromAll(b: Board, i: nat)
    requires i <= |b| && AllZero(b)
    ensures ZerosFrom(b, i) == (|b| - i) * |b|
    decreases |b| - i
  {
    if i < |b| {
      RowZerosAll(b[i], 0);
      ZerosFromAll(b, i + 1);
      assert (|b| - i) * |b| == |b| + (|b| - (i + 1)) * |b|;
    }
  }

  // ---------------------------------------------------------------------
  // monotonicity (raw tile values)

  /** What the adjacent pair (x, y) adds to a decreasing total: the drop
      x - y when both cells hold tiles and x > y. */
  function Drop(x: int, y: int): nat {
    if x != 0 && y != 0 && x > y then x - y else 0
  }

  /** Sum of the drops over the pairs (r[j], r[j+1]) with j < k. */
  function Drops(r: seq<int>, k: nat): nat
    requires k == 0 || k < |r|
  {
    if k == 0 then 0 else Drops(r, k - 1) + Drop(r[k - 1], r[k])
  }

  /** Sum of the rises over the pairs (r[j], r[j+1]) with j < k. */
  function Rises(r: seq<int>, k: nat): nat
    requires k == 0 || k < |r|
  {
    if k == 0 then 0 else Rises(r, k - 1) + Drop(r[k], r[k - 1])
  }

  /** Number of adjacent pairs in a line of n cells: range(size - 1). */
  function PairCount(n: nat): nat {
    if n == 0 then 0 else n - 1
  }

  function LineDrops(r: seq<int>): nat {
    Drops(r, PairCount(|r|))
  }

  function LineRises(r: seq<int>): nat {
    Rises(r, PairCount(|r|))
  }

  /** Total drops over a list of lines, accumulated line by line. */
  function LinesDrops(lines: seq<seq<int>>): nat {
    if lines == [] then 0 else LinesDrops(lines[..|lines| - 1]) + LineDrops(lines[|lines| - 1])
  }

  function LinesRises(lines: seq<seq<int>>): nat {
    if lines == [] then 0 else LinesRises(lines[..|lines| - 1]) + LineRises(lines[|lines| - 1])
  }

  /** monotonicity: max(up, down) + max(left, right), where left/right sum
      the drops/rises along every row and up/down along every column. */
  function MonotonicityScore(b: Board): int {
    var cols := Transpose(b);
    Max(LinesDrops(cols), LinesRises(cols)) + Max(LinesDrops(b), LinesRises(b))
  }

  /** The four totals are filled in place: rows first (left, right), then
      columns (up, down). */
  method Monotonicity(board: Board) returns (m: int)
    ensures m == MonotonicityScore(board)
  {
    var size := |board|;
    var totals := [0, 0, 0, 0];
    for i := 0 to size
      invariant |totals| == 4 && totals[0] == 0 && totals[1] == 0
      invariant totals[2] == LinesDrops(board[..i]) && totals[3] == LinesRises(board[..i])
    {
      var currentLeft, currentRight := RowTrend(board[i]);
      totals := totals[2 := totals[2] + currentLeft][3 := totals[3] + currentRight];
      assert board[..i + 1][..i] == board[..i];
    }
    assert board[..size] == board;
    ghost var cols := Transpose(board);
    for j := 0 to size
      invariant |totals| == 4
      invariant totals[0] == LinesDrops(cols[..j]) && totals[1] == LinesRises(cols[..j])
      invariant totals[2] == LinesDrops(board) && totals[3] == LinesRises(board)
    {
      var currentUp, currentDown := ColumnTrend(board, j);
      assert cols[j] == Column(board, j);
      totals := totals[0 := totals[0] + currentUp][1 := totals[1] + currentDown];
      assert cols[..j + 1][..j] == cols[..j];
    }
    assert cols[..size] == cols;
    m := Max(totals[0], totals[1]) + Max(totals[2], totals[3]);
  }

  /** The inner loop over the rows: the drops and rises along one row. */
  method RowTrend(row: seq<int>) returns (currentLeft: int, currentRight: int)
    ensures currentLeft == LineDrops(row) && currentRight == LineRises(row)
  {
    var size := |row|;
    currentLeft, currentRight := 0, 0;
    var j := 0;
    while j < size - 1
      invariant 0 <= j <= PairCount(size)
      invariant currentLeft == Drops(row, j) && currentRight == Rises(row, j)
    {
      if row[j] != 0 && row[j + 1] != 0 {
        currentLeft := currentLeft + (if row[j] > row[j + 1] then row[j] - row[j + 1] else 0);
        currentRight := currentRight + (if row[j + 1] > row[j] then row[j + 1] - row[j] else 0);
      }
      j := j + 1;
    }
  }

  /** The inner loop over the columns: the drops and rises down column j,
      read cell by cell from the board. */
  method ColumnTrend(board: Board, j: nat) returns (currentUp: int, currentDown: int)
    requires j < |board|
    ensures currentUp == LineDrops(Column(board, j)) && currentDown == LineRises(Column(board, j))
  {
    var size := |board|;
    ghost var col := Column(board, j);
    currentUp, currentDown := 0, 0;
    var i := 0;
    while i < size - 1
      invariant 0 <= i <= PairCount(size)
      invariant currentUp == Drops(col, i) && currentDown == Rises(col, i)
    {
      if board[i][j] != 0 && board[i + 1][j] != 0 {
        currentUp := currentUp + (if board[i][j] > board[i + 1][j] then board[i][j] - board[i + 1][j] else 0);
        currentDown := currentDown + (if board[i + 1][j] > board[i][j] then board[i + 1][j] - board[i][j] else 0);
      }
      i := i + 1;
    }
  }

  /** Monotonicity is never negative, and it does not change when rows and
      columns swap roles. */
  lemma MonotonicityLaws(b: Board)
    ensures MonotonicityScore(b) >= 0
    ensures MonotonicityScore(Transpose(b)) == MonotonicityScore(b)
  {
    TransposeInvolution(b);
  }

  /** Reading a line backwards turns its drops into rises. */
  lemma {:induction false} DropsReversed(r: seq<int>, k: nat)
    requires k < |r|
    ensures Drops(RevRow(r), k) + Rises(r, |r| - 1 - k) == Rises(r, |r| - 1)
  {
    var s := RevRow(r);
    var n := |r|;
    if k > 0 {
      DropsReversed(r, k - 1);
      assert s[k - 1] == r[n - k] && s[k] == r[n - 1 - k];
    }
  }

  lemma LineDropsReversed(r: seq<int>)
    ensures LineDrops(RevRow(r)) == LineRises(r)
  {
    if |r| > 0 {
      DropsReversed(r, |r| - 1);
    }
  }

  /** Mirroring every row (what a RIGHT move conjugates with) swaps the
      left and right totals. */
  lemma {:induction false} LinesDropsReversed(lines: seq<seq<int>>, rev: seq<seq<int>>)
    requires |rev| == |lines| && forall k :: 0 <= k < |lines| ==> rev[k] == RevRow(lines[k])
    ensures LinesDrops(rev) == LinesRises(lines)
  {
    if lines != [] {
      var n := |lines|;
      LinesDropsReversed(lines[..n - 1], rev[..n - 1]);
      LineDropsReversed(lines[n - 1]);
    }
  }

  /** The totals do not depend on which end the list of lines is summed
      from: a line in front adds its own drops and rises. */
  lemma {:induction false} LinesCons(l: seq<int>, lines: seq<seq<int>>)
    ensures LinesDrops([l] + lines) == LineDrops(l) + LinesDrops(lines)
    ensures LinesRises([l] + lines) == LineRises(l) + LinesRises(lines)
    decreases |lines|
  {
    if lines != [] {
      var n := |lines|;
      LinesCons(l, lines[..n - 1]);
      assert ([l] + lines)[..n] == [l] + lines[..n - 1];
    }
  }

  /** Listing the lines in the opposite order keeps both totals. */
  lemma {:induction false} LinesBackwards(lines: seq<seq<int>>, back: seq<seq<int>>)
    requires |back| == |lines| && forall k :: 0 <= k < |lines| ==> back[k] == lines[|lines| - 1 - k]
    ensures LinesDrops(back) == LinesDrops(lines) && LinesRises(back) == LinesRises(lines)
    decreases |lines|
  {
    if lines != [] {
      var n := |lines|;
      LinesBackwards(lines[..n - 1], back[1..]);
      assert back == [lines[n - 1]] + back[1..];
      LinesCons(lines[n - 1], back[1..]);
    }
  }

  /** The columns of the mirrored board are the board's columns, right to
      left. */
  lemma ColumnsMirrored(b: Board)
    ensures forall k :: 0 <= k < |b| ==> Transpose(Reverse(b))[k] == Transpose(b)[|b| - 1 - k]
  {
    var r := Reverse(b);
    var n := |b|;
    forall k | 0 <= k < n
      ensures Transpose(r)[k] == Transpose(b)[n - 1 - k]
    {
      forall i | 0 <= i < n
        ensures Column(r, k)[i] == Column(b, n - 1 - k)[i]
      {
        assert r[i] == RevRow(b[i]);
      }
    }
  }

  /** Monotonicity is unchanged by mirroring the board left to right (the
      rearrangement a RIGHT move conjugates with): the left and right totals
      swap, and the columns are the same lines listed backwards. */
  lemma MonotonicityMirror(b: Board)
    ensures MonotonicityScore(Reverse(b)) == MonotonicityScore(b)
  {
    var r := Reverse(b);
    LinesDropsReversed(b, r);
    ReverseInvolution(b);
    LinesDropsReversed(r, b);
    ColumnsMirrored(b);
    LinesBackwards(Transpose(b), Transpose(r));
  }

  // ---------------------------------------------------------------------
  // smoothness

  function Gap(x: int, y: int): nat {
    if x >= y then x - y else y - x
  }

  /** The penalty of cell (i, j): for a tile, minus the exponent gap to each
      right or lower neighbour that is also a tile. */
  function SmoothAt(b: Board, i: nat, j: nat): int
    requires i < |b| && j < |b|
  {
    var n := |b|;
    if b[i][j] == 0 then 0
    else
      (if j < n - 1 && b[i][j + 1] != 0 then -(Gap(Log2(b[i][j]), Log2(b[i][j + 1])) as int) else 0) +
      (if i < n - 1 && b[i + 1][j] != 0 then -(Gap(Log2(b[i][j]), Log2(b[i + 1][j])) as int) else 0)
  }

  function SmoothRow(b: Board, i: nat, k: nat): int
    requires i < |b| && k <= |b|
  {
    if k == 0 then 0 else SmoothRow(b, i, k - 1) + SmoothAt(b, i, k - 1)
  }

  function SmoothRows(b: Board, k: nat): int
    requires k <= |b|
  {
    if k == 0 then 0 else SmoothRows(b, k - 1) + SmoothRow(b, k - 1, |b|)
  }

  function SmoothnessScore(b: Board): int {
    SmoothRows(b, |b|)
  }

  method Smoothness(board: Board) returns (smoothness: int)
    ensures smoothness == SmoothnessScore(board)
  {
    var size := |board|;
    smoothness := 0;
    for i := 0 to size
      invariant smoothness == SmoothRows(board, i)
    {
      for j := 0 to size
        invariant smoothness == SmoothRows(board, i) + SmoothRow(board, i, j)
      {
        if board[i][j] != 0 {
          var value := Log2(board[i][j]);
          if j < size - 1 && board[i][j + 1] != 0 {
            var targetValue := Log2(board[i][j + 1]);
            smoothness := smoothness - Gap(value, targetValue);
          }
          if i < size - 1 && board[i + 1][j] != 0 {
            var targetValue := Log2(board[i + 1][j]);
            smoothness := smoothness - Gap(value, targetValue);
          }
        }
      }
    }
  }

  /** Cell (i, j) holds a tile next to a different tile on its right or
      below. */
  predicate RoughAt(b: Board, i: nat, j: nat)
    requires i < |b| && j < |b|
  {
    var n := |b|;
    b[i][j] != 0 &&
    ((j < n - 1 && b[i][j + 1] != 0 && b[i][j + 1] != b[i][j]) ||
     (i < n - 1 && b[i + 1][j] != 0 && b[i + 1][j] != b[i][j]))
  }

  predicate Rough(b: Board) {
    exists i, j :: 0 <= i < |b| && 0 <= j < |b| && RoughAt(b, i, j)
  }

  lemma SmoothAtSpec(b: Board, i: nat, j: nat)
    requires i < |b| && j < |b|
    ensures SmoothAt(b, i, j) <= 0
    ensures !RoughAt(b, i, j) ==> SmoothAt(b, i, j) == 0
    ensures AllTiles(b) && RoughAt(b, i, j) ==> SmoothAt(b, i, j) < 0
  {
    var n := |b|;
    if AllTiles(b) && RoughAt(b, i, j) {
      if j < n - 1 && b[i][j + 1] != 0 && b[i][j + 1] != b[i][j] {
        if Log2(b[i][j]) == Log2(b[i][j + 1]) {
          TileLogInjective(b[i][j], b[i][j + 1]);
        }
      } else {
        if Log2(b[i][j]) == Log2(b[i + 1][j]) {
          TileLogInjective(b[i][j], b[i + 1][j]);
        }
      }
    }
  }

  lemma {:induction false} SmoothRowSpec(b: Board, i: nat, k: nat)
    requires i < |b| && k <= |b|
    ensures SmoothRow(b, i, k) <= 0
    ensures (forall j :: 0 <= j < k ==> !RoughAt(b, i, j)) ==> SmoothRow(b, i, k) == 0
    ensures AllTiles(b) && (exists j :: 0 <= j < k && RoughAt(b, i, j)) ==> SmoothRow(b, i, k) < 0
  {
    if k > 0 {
      SmoothRowSpec(b, i, k - 1);
      SmoothAtSpec(b, i, k - 1);
    }
  }

  lemma {:induction false} SmoothRowsSpec(b: Board, k: nat)
    requires k <= |b|
    ensures SmoothRows(b, k) <= 0
    ensures (forall i, j :: 0 <= i < k && 0 <= j < |b| ==> !RoughAt(b, i, j)) ==> SmoothRows(b, k) == 0
    ensures AllTiles(b) && (exists i, j :: 0 <= i < k && 0 <= j < |b| && RoughAt(b, i, j)) ==>
              SmoothRows(b, k) < 0
  {
    if k > 0 {
      SmoothRowsSpec(b, k - 1);
      SmoothRowSpec(b, k - 1, |b|);
    }
  }

  /** smoothness is a penalty: never positive, and 0 exactly when no tile
      touches a different tile on its right or below (for the "only if",
      tiles must be powers of two, whose exponents differ when they do). */
  lemma SmoothnessSpec(b: Board)
    ensures SmoothnessScore(b) <= 0
    ensures !Rough(b) ==> SmoothnessScore(b) == 0
    ensures AllTiles(b) ==> (SmoothnessScore(b) == 0 <==> !Rough(b))
  {
    SmoothRowsSpec(b, |b|);
  }

  // ---------------------------------------------------------------------
  // merge_potential

  /** Equal tiles to the right of and below cell (i, j): 0, 1 or 2. */
  function MergeAt(b: Board, i: nat, j: nat): nat
    requires i < |b| && j < |b|
  {
    var n := |b|;
    if b[i][j] == 0 then 0
    else
      (if j < n - 1 && b[i][j] == b[i][j + 1] then 1 else 0) +
      (if i < n - 1 && b[i][j] == b[i + 1][j] then 1 else 0)
  }

  function MergeRow(b: Board, i: nat, k: nat): nat
    requires i < |b| && k <= |b|
  {
    if k == 0 then 0 else MergeRow(b, i, k - 1) + MergeAt(b, i, k - 1)
  }

  function MergeRows(b: Board, k: nat): nat
    requires k <= |b|
  {
    if k == 0 then 0 else MergeRows(b, k - 1) + MergeRow(b, k - 1, |b|)
  }

  function MergeCount(b: Board): nat {
    MergeRows(b, |b|)
  }

  method MergePotential(board: Board) returns (mergeCount: nat)
    ensures mergeCount == MergeCount(board)
  {
    var size := |board|;
    mergeCount := 0;
    for i := 0 to size
      invariant mergeCount == MergeRows(board, i)
    {
      for j := 0 to size
        invariant mergeCount == MergeRows(board, i) + MergeRow(board, i, j)
      {
        if board[i][j] != 0 {
          if j < size - 1 && board[i][j] == board[i][j + 1] {
            mergeCount := mergeCount + 1;
          }
          if i < size - 1 && board[i][j] == board[i + 1][j] {
            mergeCount := mergeCount + 1;
          }
        }
      }
    }
  }

  /** Cell (i, j) holds a tile equal to its right or lower neighbour. */
  predicate PairAt(b: Board, i: nat, j: nat)
    requires i < |b| && j < |b|
  {
    var n := |b|;
    b[i][j] != 0 && ((j < n - 1 && b[i][j] == b[i][j + 1]) || (i < n - 1 && b[i][j] == b[i + 1][j]))
  }

  lemma {:induction false} MergeRowSpec(b: Board, i: nat, k: nat)
    requires i < |b| && k <= |b|
    ensures MergeRow(b, i, k) > 0 <==> exists j :: 0 <= j < k && PairAt(b, i, j)
    ensures MergeRow(b, i, k) <= (if k < |b| then k else |b| - 1) + (if i < |b| - 1 then k else 0)
  {
    if k > 0 {
      MergeRowSpec(b, i, k - 1);
      assert MergeAt(b, i, k - 1) > 0 <==> PairAt(b, i, k - 1);
    }
  }

  lemma {:induction false} MergeRowsSpec(b: Board, k: nat)
    requires k <= |b|
    ensures MergeRows(b, k) > 0 <==> exists i, j :: 0 <= i < k && 0 <= j < |b| && PairAt(b, i, j)
    ensures MergeRows(b, k) <= k * (2 * |b| - 1) - (if k == |b| then |b| else 0)
  {
    var n := |b|;
    if k > 0 {
      MergeRowsSpec(b, k - 1);
      MergeRowSpec(b, k - 1, n);
      if k == n {
        assert (k - 1) * (2 * n - 1) + (n - 1) == k * (2 * n - 1) - n;
      } else {
        assert (k - 1) * (2 * n - 1) + (2 * n - 1) == k * (2 * n - 1);
      }
    }
  }

  /** merge_potential lies between 0 and 2·size·(size−1) (every cell but
      those in the last column has a right neighbour, every cell but those
      in the last row a lower one), and is positive exactly when some row or
      column holds two equal touching tiles, which is when a move could
      merge. */
  lemma MergePotentialSpec(b: Board)
    ensures 0 <= MergeCount(b) <= 2 * |b| * (|b| - 1)
    ensures MergeCount(b) > 0 <==> Mergeable(b)
  {
    var n := |b|;
    MergeRowsSpec(b, n);
    assert n * (2 * n - 1) - n == 2 * n * (n - 1);
    if MergeCount(b) > 0 {
      var i, j :| 0 <= i < n && 0 <= j < n && PairAt(b, i, j);
      if j < n - 1 && b[i][j] == b[i][j + 1] {
        assert HasPair(b[i]);
      } else {
        assert Column(b, j)[i] == b[i][j] && Column(b, j)[i + 1] == b[i + 1][j];
        assert HasPair(Column(b, j));
      }
    }
    if Mergeable(b) {
      var k :| 0 <= k < n && (HasPair(b[k]) || HasPair(Column(b, k)));
      if HasPair(b[k]) {
        var j :| 0 <= j < n - 1 && b[k][j] != 0 && b[k][j] == b[k][j + 1];
        assert PairAt(b, k, j);
      } else {
        var c := Column(b, k);
        var i :| 0 <= i < n - 1 && c[i] != 0 && c[i] == c[i + 1];
        assert PairAt(b, i, k);
      }
    }
  }

  /** A board with merge potential is never over. */
  lemma MergePotentialNotOver(b: Board)
    requires MergeCount(b) > 0
    ensures !GameOver(b)
  {
    MergePotentialSpec(b);
    MergeableNotOver(b);
  }

  // ---------------------------------------------------------------------
  // max_tile_score and corner_bonus

  /** max_tile_score: log2 of the largest cell, 0 when the largest is 0
      (max of an empty board raises, hence the precondition). */
  function MaxTileScore(b: Board): (r: nat)
    requires |b| >= 1
    ensures AllZero(b) ==> r == 0
    ensures AllTiles(b) && !AllZero(b) ==>
              r >= 1 && exists i, j :: 0 <= i < |b| && 0 <= j < |b| && b[i][j] == Pow2(r)
    ensures AllTiles(b) ==> forall i, j :: 0 <= i < |b| && 0 <= j < |b| ==> b[i][j] <= Pow2(r)
  {
    var maxTile := MaxTile(b);
    if maxTile == 0 then 0
    else
      assert AllTiles(b) ==> IsTile(maxTile) by {
        if AllTiles(b) {
          var i, j :| 0 <= i < |b| && 0 <= j < |b| && b[i][j] == maxTile;
          assert CellOk(b[i][j]);
        }
      }
      assert AllTiles(b) ==> Pow2(Log2(maxTile)) == maxTile by {
        if AllTiles(b) {
          TileLog(maxTile);
        }
      }
      Log2(maxTile)
  }

  /** The four corner values, in the order of the source. */
  function Corners(b: Board): (cs: seq<int>)
    requires |b| >= 1
    ensures |cs| == 4
  {
    var n := |b|;
    [b[0][0], b[0][n - 1], b[n - 1][0], b[n - 1][n - 1]]
  }

  /** No cell exceeds v. */
  predicate Dominates(b: Board, v: int) {
    forall i, j :: 0 <= i < |b| && 0 <= j < |b| ==> b[i][j] <= v
  }

  /** corner_bonus: 20000 exactly when some corner holds a largest value
      of the board, else 0. */
  function CornerBonus(b: Board): (r: int)
    requires |b| >= 1
    ensures r == 0 || r == 20000
    ensures r == 20000 <==> exists k :: 0 <= k < 4 && Dominates(b, Corners(b)[k])
  {
    var maxTile := MaxTile(b);
    var corners := Corners(b);
    var n := |b|;
    assert forall k :: 0 <= k < 4 && Dominates(b, corners[k]) ==> corners[k] == maxTile by {
      assert corners[0] == b[0][0] && corners[1] == b[0][n - 1];
      assert corners[2] == b[n - 1][0] && corners[3] == b[n - 1][n - 1];
    }
    if maxTile in corners then 20000 else 0
  }

  /** An empty board gets the full corner bonus and no other feature but
      its empty cells. */
  lemma AllZeroFeatures(b: Board)
    requires |b| >= 1 && AllZero(b)
    ensures CornerBonus(b) == 20000 && MaxTileScore(b) == 0
    ensures EmptyTiles(b) == |b| * |b| * (|b| * |b|)
    ensures MonotonicityScore(b) == 0 && SmoothnessScore(b) == 0 && MergeCount(b) == 0
  {
    assert Dominates(b, Corners(b)[0]);
    ZerosFromAll(b, 0);
    EmptyFromCount(b, 0);
    assert |EmptyCells(b)| == |b| * |b|;
    SmoothnessSpec(b);
    MergePotentialSpec(b);
    assert !Mergeable(b) by {
      forall k | 0 <= k < |b|
        ensures !HasPair(b[k]) && !HasPair(Column(b, k))
      {
      }
    }
    AllZeroLinesFlat(b);
  }

  lemma {:induction false} ZeroDrops(r: seq<int>, k: nat)
    requires k == 0 || k < |r|
    requires forall p :: 0 <= p < |r| ==> r[p] == 0
    ensures Drops(r, k) == 0 && Rises(r, k) == 0
  {
    if k > 0 {
      ZeroDrops(r, k - 1);
    }
  }

  lemma {:induction false} ZeroLines(lines: seq<seq<int>>)
    requires forall i, j :: 0 <= i < |lines| && 0 <= j < |lines[i]| ==> lines[i][j] == 0
    ensures LinesDrops(lines) == 0 && LinesRises(lines) == 0
  {
    if lines != [] {
      var n := |lines|;
      ZeroLines(lines[..n - 1]);
      ZeroDrops(lines[n - 1], PairCount(|lines[n - 1]|));
    }
  }

  lemma AllZeroLinesFlat(b: Board)
    requires AllZero(b)
    ensures LinesDrops(b) == 0 && LinesRises(b) == 0
    ensures LinesDrops(Transpose(b)) == 0 && LinesRises(Transpose(b)) == 0
  {
    ZeroLines(b);
    ZeroLines(Transpose(b));
  }

  // ---------------------------------------------------------------------
  // evaluate

  /** The weights dict: four required entries, and 'corner_bonus', which
      may be missing. */
  datatype Weights = Weights(
    emptyTiles: real,
    monotonicity: real,
    smoothness: real,
    maxTile: real,
    cornerBonus: Option<real>)

  /** The weights evaluate uses when it is given none. */
  const DefaultWeights := Weights(10.0, 4.0, 0.5, 2.0, Some(1.0))

  /** The weights in force: the given ones, or the defaults. */
  function Effective(weights: Option<Weights>): Weights {
    if weights.None? then DefaultWeights else weights.value
  }

  /** weights.get('corner_bonus', 1.0) */
  function CornerWeight(w: Weights): real {
    if w.cornerBonus.Some? then w.cornerBonus.value else 1.0
  }

  /** The five feature values evaluate combines. */
  datatype Features = Features(empty: int, monotonicity: int, smoothness: int, maxTile: int, corner: int)

  function FeaturesOf(b: Board): Features
    requires |b| >= 1
  {
    Features(EmptyTiles(b), MonotonicityScore(b), SmoothnessScore(b), MaxTileScore(b), CornerBonus(b))
  }

  /** One weighted feature: weight * value. */
  function Term(weight: real, value: int): real {
    weight * value as real
  }

  function Weighted(w: Weights, f: Features): real {
    Term(w.emptyTiles, f.empty) +
    Term(w.monotonicity, f.monotonicity) +
    Term(w.smoothness, f.smoothness) +
    Term(w.maxTile, f.maxTile) +
    Term(CornerWeight(w), f.corner)
  }

  /** The value evaluate returns for a board. */
  function Score(b: Board, weights: Option<Weights>): real
    requires |b| >= 1
  {
    Weighted(Effective(weights), FeaturesOf(b))
  }

  /** evaluate: add the weighted features one by one. */
  method Evaluate(board: Board, weights: Option<Weights>) returns (score: real)
    requires |board| >= 1
    ensures score == Score(board, weights)
  {
    var w := Effective(weights);
    var empty := EmptyTiles(board);
    var monotonicity := Monotonicity(board);
    var smoothness := Smoothness(board);
    var maxTile := MaxTileScore(board);
    var corner := CornerBonus(board);
    ghost var f := Features(empty, monotonicity, smoothness, maxTile, corner);
    assert f == FeaturesOf(board);
    score := 0.0;
    score := score + Term(w.emptyTiles, empty);
    score := score + Term(w.monotonicity, monotonicity);
    score := score + Term(w.smoothness, smoothness);
    score := score + Term(w.maxTile, maxTile);
    score := score + Term(CornerWeight(w), corner);
    assert score == Weighted(w, f);
  }

  /** Without weights, evaluate is the sum with weights 10, 4, 0.5, 2 and
      1. */
  lemma DefaultScore(b: Board)
    requires |b| >= 1
    ensures Score(b, None) ==
            10.0 * EmptyTiles(b) as real + 4.0 * MonotonicityScore(b) as real +
            0.5 * SmoothnessScore(b) as real + 2.0 * MaxTileScore(b) as real +
            CornerBonus(b) as real
  {
  }

  /** A weights dict without 'corner_bonus' weighs the corner bonus 1.0. */
  lemma MissingCornerWeight(b: Board, w: Weights)
    requires |b| >= 1 && w.cornerBonus.None?
    ensures Score(b, Some(w)) == Score(b, Some(w.(cornerBonus := Some(1.0))))
  {
  }

  /** With the default weights, an empty N×N board scores 10·N⁴ + 20000. */
  lemma EmptyBoardScore(b: Board)
    requires |b| >= 1 && AllZero(b)
    ensures Score(b, None) == 10.0 * (|b| * |b| * |b| * |b|) as real + 20000.0
  {
    var cells := |b| * |b| * (|b| * |b|);
    AllZeroFeatures(b);
    assert FeaturesOf(b) == Features(cells, 0, 0, 0, 20000);
    assert Score(b, None) == Weighted(DefaultWeights, Features(cells, 0, 0, 0, 20000));
    assert cells == |b| * |b| * |b| * |b|;
  }
}
