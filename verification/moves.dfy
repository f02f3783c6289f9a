/** Move resolution of Game2048 as functions on board values: the left
    slide of one row (compress, merge once left to right, pad), the left
    slide of a board, and the three other directions obtained from it by
    reversing and transposing the board. The class in game.dfy performs the
    same steps in place and is proved to produce these values. */
module Moves {
  import opened Boards

  const UP := 0
  const RIGHT := 1
  const DOWN := 2
  const LEFT := 3

  function Sum(s: seq<int>): int {
    if s == [] then 0 else s[0] + Sum(s[1..])
  }

  function Zeros(k: nat): (z: seq<int>)
    ensures |z| == k && forall i :: 0 <= i < k ==> z[i] == 0
  {
    seq(k, _ => 0)
  }

  /** [x for x in row if x != 0] */
  function Compress(r: seq<int>): (c: seq<int>)
    ensures |c| <= |r|
    ensures forall k :: 0 <= k < |c| ==> c[k] != 0
  {
    if r == [] then [] else (if r[0] != 0 then [r[0]] else []) + Compress(r[1..])
  }

  /** The merge scan of _move_left: equal neighbours become one doubled tile
      and the consumed second tile is skipped, so each tile merges at most
      once. */
  function Merge(c: seq<int>): (m: seq<int>)
    ensures |m| <= |c|
    ensures |c| >= 1 ==> |m| >= 1
  {
    if |c| <= 1 then c
    else if c[0] == c[1] then [2 * c[0]] + Merge(c[2..])
    else [c[0]] + Merge(c[1..])
  }

  /** The points the merge scan adds: the value of every doubled tile. */
  function MergePoints(c: seq<int>): int {
    if |c| <= 1 then 0
    else if c[0] == c[1] then 2 * c[0] + MergePoints(c[2..])
    else MergePoints(c[1..])
  }

  /** merged + [0] * (size - len(merged)) */
  function Pad(m: seq<int>, n: nat): (s: seq<int>)
    requires |m| <= n
    ensures |s| == n
  {
    m + Zeros(n - |m|)
  }

  /** The new row of _move_left: merged non-zero tiles padded with zeros. */
  function SlideRow(r: seq<int>, n: nat): (s: seq<int>)
    requires |r| <= n
    ensures |s| == n
  {
    Pad(Merge(Compress(r)), n)
  }

  /** Board after _move_left. */
  function SlideLeft(b: Board): (r: Board)
    ensures |r| == |b|
  {
    seq(|b|, i requires 0 <= i < |b| => SlideRow(b[i], |b|))
  }

  /** Points of sliding the given rows left, accumulated row by row. */
  function RowsPoints(rows: seq<seq<int>>): int {
    if rows == [] then 0
    else RowsPoints(rows[..|rows| - 1]) + MergePoints(Compress(rows[|rows| - 1]))
  }

  /** Points returned by _move_left. */
  function LeftPoints(b: Board): int {
    RowsPoints(b)
  }

  /** Board after move(direction): UP transposes, slides left and
      transposes back; RIGHT does the same with reversal; DOWN transposes,
      slides right and transposes back; any other direction leaves the
      board as it is. */
  function Slide(b: Board, d: int): (r: Board)
    ensures |r| == |b|
    decreases if d == DOWN then 2 else if d == LEFT then 0 else 1
  {
    if d == UP then Transpose(Slide(Transpose(b), LEFT))
    else if d == RIGHT then Reverse(Slide(Reverse(b), LEFT))
    else if d == DOWN then Transpose(Slide(Transpose(b), RIGHT))
    else if d == LEFT then SlideLeft(b)
    else b
  }

  /** Points returned by move(direction). */
  function Points(b: Board, d: int): int
    decreases if d == DOWN then 2 else if d == LEFT then 0 else 1
  {
    if d == UP then Points(Transpose(b), LEFT)
    else if d == RIGHT then Points(Reverse(b), LEFT)
    else if d == DOWN then Points(Transpose(b), RIGHT)
    else if d == LEFT then LeftPoints(b)
    else 0
  }

  /** Whether each of the four directions changes the board. */
  function Changes(b: Board): (f: seq<bool>)
    ensures |f| == 4
  {
    seq(4, d requires 0 <= d < 4 => Slide(b, d) != b)
  }

  /** The directions among 0 .. k-1 whose flag is set, in increasing order. */
  function Flagged(flags: seq<bool>, k: nat): seq<int>
    requires k <= |flags|
  {
    if k == 0 then []
    else Flagged(flags, k - 1) + (if flags[k - 1] then [k - 1] else [])
  }

  /** get_available_moves. */
  function LegalMoves(b: Board): seq<int> {
    Flagged(Changes(b), 4)
  }

  /** is_game_over. */
  predicate GameOver(b: Board) {
    LegalMoves(b) == []
  }
}
