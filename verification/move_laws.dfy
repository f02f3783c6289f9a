/** Laws of the move resolution: what a left slide does to one row, the
    row and column sums every direction keeps, the power-of-two invariant,
    the conjugation identities behind RIGHT, UP and DOWN, and which
    directions are legal. */
module MoveLaws {
  import opened Boards
  import opened Moves

  /** Non-zero cells first, then only zeros. */
  predicate Packed(s: seq<int>) {
    forall i, j :: 0 <= i < j < |s| && s[i] == 0 ==> s[j] == 0
  }

  /** Two equal neighbours anywhere in the sequence. */
  predicate AdjEqual(c: seq<int>) {
    exists j :: 0 <= j < |c| - 1 && c[j] == c[j + 1]
  }

  /** Two equal non-zero neighbours: a merge a slide would perform. */
  predicate HasPair(s: seq<int>) {
    exists j :: 0 <= j < |s| - 1 && s[j] != 0 && s[j] == s[j + 1]
  }

  predicate AllNonZero(s: seq<int>) {
    forall k :: 0 <= k < |s| ==> s[k] != 0
  }

  predicate TileRow(s: seq<int>) {
    forall k :: 0 <= k < |s| ==> IsTile(s[k])
  }

  predicate OkRow(s: seq<int>) {
    forall k :: 0 <= k < |s| ==> CellOk(s[k])
  }

  // ---------------------------------------------------------------------
  // Sums and sequence helpers

  lemma {:induction false} SumAppend(a: seq<int>, c: seq<int>)
    ensures Sum(a + c) == Sum(a) + Sum(c)
  {
    if a != [] {
      assert (a + c)[0] == a[0];
      assert (a + c)[1..] == a[1..] + c;
      SumAppend(a[1..], c);
    } else {
      assert a + c == c;
    }
  }

  lemma {:induction false} SumZeros(k: nat)
    ensures Sum(Zeros(k)) == 0
  {
    if k > 0 {
      assert Zeros(k)[1..] == Zeros(k - 1);
      SumZeros(k - 1);
    }
  }

  lemma {:induction false} SumRev(r: seq<int>)
    ensures Sum(RevRow(r)) == Sum(r)
  {
    if r != [] {
      assert RevRow(r) == RevRow(r[1..]) + [r[0]];
      SumAppend(RevRow(r[1..]), [r[0]]);
      SumRev(r[1..]);
    }
  }

  lemma RevRowInvolution(r: seq<int>)
    ensures RevRow(RevRow(r)) == r
  {
  }

  lemma {:induction false} CompressAppend(a: seq<int>, c: seq<int>)
    ensures Compress(a + c) == Compress(a) + Compress(c)
  {
    if a != [] {
      assert (a + c)[0] == a[0];
      assert (a + c)[1..] == a[1..] + c;
      CompressAppend(a[1..], c);
    } else {
      assert a + c == c;
    }
  }

  lemma {:induction false} CompressZeros(k: nat)
    ensures Compress(Zeros(k)) == []
  {
    if k > 0 {
      assert Zeros(k)[1..] == Zeros(k - 1);
      CompressZeros(k - 1);
    }
  }

  lemma {:induction false} CompressNonZero(s: seq<int>)
    requires AllNonZero(s)
    ensures Compress(s) == s
  {
    if s != [] {
      CompressNonZero(s[1..]);
    }
  }

  lemma {:induction false} CompressSum(r: seq<int>)
    ensures Sum(Compress(r)) == Sum(r)
  {
    if r != [] {
      CompressSum(r[1..]);
      SumAppend(if r[0] != 0 then [r[0]] else [], Compress(r[1..]));
    }
  }

  /** Compressing keeps exactly the tiles of the row. */
  lemma {:induction false} CompressTiles(r: seq<int>)
    requires OkRow(r)
    ensures TileRow(Compress(r))
  {
    if r != [] {
      CompressTiles(r[1..]);
    }
  }

  // ---------------------------------------------------------------------
  // The merge scan

  lemma {:induction false} MergeSum(c: seq<int>)
    ensures Sum(Merge(c)) == Sum(c)
  {
    if |c| > 1 {
      if c[0] == c[1] {
        MergeSum(c[2..]);
        assert Sum(c) == c[0] + (c[1] + Sum(c[2..])) by {
          assert c[1..][1..] == c[2..];
        }
      } else {
        MergeSum(c[1..]);
      }
    }
  }

  lemma {:induction false} MergeNonZero(c: seq<int>)
    requires AllNonZero(c)
    ensures AllNonZero(Merge(c))
  {
    if |c| > 1 {
      if c[0] == c[1] { MergeNonZero(c[2..]); } else { MergeNonZero(c[1..]); }
    }
  }

  /** Merging tiles yields tiles: a merged tile doubles a power of two. */
  lemma {:induction false} MergeTiles(c: seq<int>)
    requires TileRow(c)
    ensures TileRow(Merge(c))
  {
    if |c| > 1 {
      if c[0] == c[1] {
        DoubleTile(c[0]);
        MergeTiles(c[2..]);
      } else {
        MergeTiles(c[1..]);
      }
    }
  }

  /** Without equal neighbours the scan changes nothing and scores nothing. */
  lemma {:induction false} MergeIdentity(c: seq<int>)
    requires !AdjEqual(c)
    ensures Merge(c) == c && MergePoints(c) == 0
  {
    if |c| > 1 {
      assert c[0] != c[1];
      forall j | 0 <= j < |c[1..]| - 1
        ensures c[1..][j] != c[1..][j + 1]
      {
        assert c[1..][j] == c[j + 1] && c[1..][j + 1] == c[j + 2];
      }
      MergeIdentity(c[1..]);
    }
  }

  /** Any pair of equal neighbours makes the merged row shorter. */
  lemma {:induction false} MergeShrinks(c: seq<int>)
    requires AdjEqual(c)
    ensures |Merge(c)| < |c|
  {
    if c[0] != c[1] {
      var j :| 0 <= j < |c| - 1 && c[j] == c[j + 1];
      assert c[1..][j - 1] == c[1..][j];
      MergeShrinks(c[1..]);
    }
  }

  /** Merge-once on every row: each output tile absorbs at most two input
      tiles, so the merged row is at least half as long as its input. */
  lemma {:induction false} MergeAtMostPairs(c: seq<int>)
    ensures |c| <= 2 * |Merge(c)|
  {
    if |c| > 1 {
      if c[0] == c[1] {
        MergeAtMostPairs(c[2..]);
      } else {
        MergeAtMostPairs(c[1..]);
      }
    }
  }

  /** Each merge creates a tile worth at least 4, and the points never
      exceed the tiles slid; so points are 0 exactly when nothing merged. */
  lemma {:induction false} MergePointsBounds(c: seq<int>)
    requires TileRow(c)
    ensures 4 * (|c| - |Merge(c)|) <= MergePoints(c) <= Sum(c)
    ensures MergePoints(c) == 0 <==> |Merge(c)| == |c|
  {
    if |c| > 1 {
      if c[0] == c[1] {
        MergePointsBounds(c[2..]);
        assert Sum(c) == c[0] + (c[1] + Sum(c[2..])) by {
          assert c[1..][1..] == c[2..];
        }
      } else {
        MergePointsBounds(c[1..]);
      }
    } else if |c| == 1 {
      assert Sum(c) == c[0] + Sum(c[1..]);
    }
  }

  /** The merge-once law: [2,2,2,2] slides left to [4,4,0,0] for 8 points,
      not to [8,0,0,0]. */
  lemma MergeOnceExample()
    ensures SlideRow([2, 2, 2, 2], 4) == [4, 4, 0, 0]
    ensures MergePoints(Compress([2, 2, 2, 2])) == 8
  {
    assert Compress([2, 2, 2, 2]) == [2, 2, 2, 2] by {
      CompressNonZero([2, 2, 2, 2]);
    }
    assert [2, 2, 2, 2][2..] == [2, 2];
    assert Merge([2, 2]) == [4];
  }

  // ---------------------------------------------------------------------
  // One row

  /** A slid row holds the merged non-zero tiles, in order, then zeros. */
  lemma SlideRowShape(r: seq<int>, n: nat)
    requires |r| <= n
    ensures Packed(SlideRow(r, n))
    ensures Compress(SlideRow(r, n)) == Merge(Compress(r))
  {
    var c := Compress(r);
    var m := Merge(c);
    MergeNonZero(c);
    PadShape(m, n);
  }

  /** Non-zero tiles padded with zeros are packed, and compress back to
      themselves. */
  lemma PadShape(m: seq<int>, n: nat)
    requires AllNonZero(m) && |m| <= n
    ensures Packed(Pad(m, n))
    ensures Compress(Pad(m, n)) == m
  {
    var k := n - |m|;
    var z := Zeros(k);
    var s := m + z;
    forall i, j | 0 <= i < j < |s| && s[i] == 0
      ensures s[j] == 0
    {
      assert i >= |m|;
      assert s[j] == z[j - |m|];
    }
    CompressAppend(m, z);
    CompressNonZero(m);
    CompressZeros(k);
    assert Compress(s) == m + [];
  }

  /** Sliding keeps the sum of the row's tiles. */
  lemma SlideRowSum(r: seq<int>, n: nat)
    requires |r| <= n
    ensures Sum(SlideRow(r, n)) == Sum(r)
  {
    var c := Compress(r);
    var m := Merge(c);
    PadSum(m, n);
    MergeSum(c);
    CompressSum(r);
  }

  /** Padding with zeros adds nothing to the sum. */
  lemma PadSum(m: seq<int>, n: nat)
    requires |m| <= n
    ensures Sum(Pad(m, n)) == Sum(m)
  {
    var k := n - |m|;
    SumAppend(m, Zeros(k));
    SumZeros(k);
  }

  lemma SlideRowTiles(r: seq<int>, n: nat)
    requires |r| <= n && OkRow(r)
    ensures OkRow(SlideRow(r, n))
  {
    CompressTiles(r);
    MergeTiles(Compress(r));
  }

  lemma {:induction false} CompressAllZero(r: seq<int>)
    requires forall k :: 0 <= k < |r| ==> r[k] == 0
    ensures Compress(r) == [] && r == Zeros(|r|)
  {
    if r != [] {
      CompressAllZero(r[1..]);
    }
  }

  /** A packed row is its non-zero prefix followed by zeros. */
  lemma {:induction false} PackedSplit(r: seq<int>)
    requires Packed(r)
    ensures r == Pad(Compress(r), |r|)
  {
    if r != [] {
      if r[0] == 0 {
        CompressAllZero(r);
      } else {
        assert Packed(r[1..]) by {
          forall i, j | 0 <= i < j < |r[1..]| && r[1..][i] == 0
            ensures r[1..][j] == 0
          {
            assert r[i + 1] == 0;
          }
        }
        PackedSplit(r[1..]);
      }
    }
  }

  /** A left slide leaves a row unchanged exactly when its tiles are already
      packed to the left and no two equal tiles touch. */
  lemma SlideRowFixed(r: seq<int>)
    ensures SlideRow(r, |r|) == r <==> Packed(r) && !HasPair(r)
  {
    var c := Compress(r);
    if Packed(r) && !HasPair(r) {
      PackedSplit(r);
      assert r[..|c|] == c;
      forall j | 0 <= j < |c| - 1
        ensures c[j] != c[j + 1]
      {
        assert r[j] == c[j] && r[j + 1] == c[j + 1];
      }
      MergeIdentity(c);
    }
    if SlideRow(r, |r|) == r {
      SlideRowShape(r, |r|);
      if HasPair(r) {
        var j :| 0 <= j < |r| - 1 && r[j] != 0 && r[j] == r[j + 1];
        PackedSplit(r);
        assert j + 1 < |c|;
        assert r[j] == c[j] && r[j + 1] == c[j + 1];
        assert AdjEqual(c);
        MergeShrinks(c);
        assert false;
      }
    }
  }

  // ---------------------------------------------------------------------
  // Whole boards

  lemma SlideLeftTiles(b: Board)
    requires AllTiles(b)
    ensures AllTiles(SlideLeft(b))
  {
    forall i | 0 <= i < |b|
      ensures OkRow(SlideLeft(b)[i])
    {
      SlideRowTiles(b[i], |b|);
    }
  }

  /** The power-of-two invariant survives every move. */
  lemma SlideKeepsTiles(b: Board, d: int)
    requires AllTiles(b)
    ensures AllTiles(Slide(b, d))
  {
    ReverseKeepsTiles(b);
    TransposeKeepsTiles(b);
    ReverseKeepsTiles(Transpose(b));
    SlideLeftTiles(b);
    SlideLeftTiles(Reverse(b));
    SlideLeftTiles(Transpose(b));
    SlideLeftTiles(Reverse(Transpose(b)));
    ReverseKeepsTiles(SlideLeft(Reverse(b)));
    TransposeKeepsTiles(SlideLeft(Transpose(b)));
    ReverseKeepsTiles(SlideLeft(Reverse(Transpose(b))));
    TransposeKeepsTiles(Reverse(SlideLeft(Reverse(Transpose(b)))));
  }

  lemma {:induction false} RowsPointsNonNeg(rows: seq<seq<int>>)
    requires forall i :: 0 <= i < |rows| ==> OkRow(rows[i])
    ensures RowsPoints(rows) >= 0
  {
    if rows != [] {
      RowsPointsNonNeg(rows[..|rows| - 1]);
      CompressTiles(rows[|rows| - 1]);
      MergePointsBounds(Compress(rows[|rows| - 1]));
    }
  }

  /** On a board of tiles no move loses points, so the score never drops. */
  lemma PointsNonNeg(b: Board, d: int)
    requires AllTiles(b)
    ensures Points(b, d) >= 0
  {
    ReverseKeepsTiles(b);
    TransposeKeepsTiles(b);
    ReverseKeepsTiles(Transpose(b));
    RowsPointsNonNeg(b);
    RowsPointsNonNeg(Reverse(b));
    RowsPointsNonNeg(Transpose(b));
    RowsPointsNonNeg(Reverse(Transpose(b)));
  }

  /** LEFT and RIGHT keep every row's sum. */
  lemma RowSumsKept(b: Board, d: int)
    requires d == LEFT || d == RIGHT
    ensures forall i :: 0 <= i < |b| ==> Sum(Slide(b, d)[i]) == Sum(b[i])
  {
    forall i | 0 <= i < |b|
      ensures Sum(Slide(b, d)[i]) == Sum(b[i])
    {
      if d == LEFT {
        SlideRowSum(b[i], |b|);
      } else {
        var rb := Reverse(b);
        assert rb[i] == RevRow(b[i]);
        SlideRowSum(rb[i], |b|);
        SumRev(SlideLeft(rb)[i]);
        SumRev(b[i]);
      }
    }
  }

  /** Each direction through the left slide, as move_up, move_right and
      move_down reach _move_left. */
  lemma UpIs(x: Board)
    ensures Slide(x, UP) == Transpose(SlideLeft(Transpose(x)))
  {
  }

  lemma RightIs(x: Board)
    ensures Slide(x, RIGHT) == Reverse(SlideLeft(Reverse(x)))
  {
  }

  lemma DownIs(x: Board)
    ensures Slide(x, DOWN) == Transpose(Slide(Transpose(x), RIGHT))
  {
  }

  /** Column j of a transposed board is row j of the board. */
  lemma ColumnOfTranspose(x: Board, j: nat)
    requires j < |x|
    ensures Column(Transpose(x), j) == x[j]
  {
    forall i | 0 <= i < |x|
      ensures Column(Transpose(x), j)[i] == x[j][i]
    {
      assert Transpose(x)[i] == Column(x, i);
    }
  }

  /** UP slides every column toward row 0 as LEFT slides a row. */
  lemma UpColumns(b: Board, j: nat)
    requires j < |b|
    ensures Column(Slide(b, UP), j) == SlideRow(Column(b, j), |b|)
  {
    var tb := Transpose(b);
    var moved := SlideLeft(tb);
    UpIs(b);
    assert tb[j] == Column(b, j);
    assert moved[j] == SlideRow(tb[j], |b|);
    ColumnOfTranspose(moved, j);
  }

  /** DOWN slides every column toward the last row. */
  lemma DownColumns(b: Board, j: nat)
    requires j < |b|
    ensures Column(Slide(b, DOWN), j) == RevRow(SlideRow(RevRow(Column(b, j)), |b|))
  {
    var tb := Transpose(b);
    var rtb := Reverse(tb);
    var moved := SlideLeft(rtb);
    var back := Reverse(moved);
    RightIs(tb);
    DownIs(b);
    assert tb[j] == Column(b, j);
    assert rtb[j] == RevRow(tb[j]);
    assert moved[j] == SlideRow(rtb[j], |b|);
    assert back[j] == RevRow(moved[j]);
    ColumnOfTranspose(back, j);
  }

  /** UP and DOWN keep every column's sum. */
  lemma ColumnSumsKept(b: Board, d: int)
    requires d == UP || d == DOWN
    ensures forall j :: 0 <= j < |b| ==> Sum(Column(Slide(b, d), j)) == Sum(Column(b, j))
  {
    forall j | 0 <= j < |b|
      ensures Sum(Column(Slide(b, d), j)) == Sum(Column(b, j))
    {
      if d == UP {
        UpColumns(b, j);
        SlideRowSum(Column(b, j), |b|);
      } else {
        DownColumns(b, j);
        var rc := RevRow(Column(b, j));
        SlideRowSum(rc, |b|);
        SumRev(SlideRow(rc, |b|));
        SumRev(Column(b, j));
      }
    }
  }

  /** RIGHT on the mirror image is the mirror image of LEFT. */
  lemma RightMirrorsLeft(b: Board)
    ensures Slide(Reverse(b), RIGHT) == Reverse(Slide(b, LEFT))
    ensures Points(Reverse(b), RIGHT) == Points(b, LEFT)
  {
    ReverseInvolution(b);
  }

  /** UP on the transposed board is the transposed LEFT; DOWN likewise is
      the transposed RIGHT. */
  lemma UpDownTransposeLeftRight(b: Board)
    ensures Slide(Transpose(b), UP) == Transpose(Slide(b, LEFT))
    ensures Slide(Transpose(b), DOWN) == Transpose(Slide(b, RIGHT))
    ensures Points(Transpose(b), UP) == Points(b, LEFT)
    ensures Points(Transpose(b), DOWN) == Points(b, RIGHT)
  {
    TransposeInvolution(b);
  }

  /** The board of the example below. */
  function ScenarioBoard(): Board {
    [[2, 0, 0, 0], [0, 0, 0, 0], [0, 0, 0, 0], [0, 2, 0, 0]]
  }

  lemma ScenarioCompress()
    ensures var b := ScenarioBoard();
            Compress(b[0]) == [2] && Compress(b[1]) == [] && Compress(b[2]) == [] && Compress(b[3]) == [2]
  {
    var b := ScenarioBoard();
    assert Compress(b[0]) == [2] by {
      assert b[0] == [2] + Zeros(3);
      CompressAppend([2], Zeros(3));
      CompressZeros(3);
    }
    assert Compress(b[3]) == [2] by {
      assert b[3] == [0] + ([2] + Zeros(2));
      CompressAppend([0], [2] + Zeros(2));
      CompressAppend([2], Zeros(2));
      CompressZeros(2);
    }
    assert b[1] == Zeros(4) && b[2] == Zeros(4);
    CompressZeros(4);
  }

  lemma ScenarioSlide()
    ensures SlideLeft(ScenarioBoard()) == [[2, 0, 0, 0], [0, 0, 0, 0], [0, 0, 0, 0], [2, 0, 0, 0]]
  {
    var b := ScenarioBoard();
    ScenarioCompress();
    var top := [2, 0, 0, 0];
    var z4 := [0, 0, 0, 0];
    assert SlideRow(b[0], 4) == top && SlideRow(b[3], 4) == top;
    assert SlideRow(b[1], 4) == z4 && SlideRow(b[2], 4) == z4;
    var left := SlideLeft(b);
    assert left[0] == top && left[1] == z4 && left[2] == z4 && left[3] == top;
  }

  lemma ScenarioPoints()
    ensures RowsPoints(ScenarioBoard()) == 0
  {
    var b := ScenarioBoard();
    ScenarioCompress();
    assert b[..3][..2][..1][..0] == [];
    assert RowsPoints(b[..3][..2][..1]) == 0;
    assert RowsPoints(b[..3][..2]) == 0;
    assert RowsPoints(b[..3]) == 0;
  }

  /** The example from the game's documentation: a 2 in the bottom row moves
      to the left edge, nothing merges. */
  lemma LeftScenario()
    ensures var b: Board := [[2, 0, 0, 0], [0, 0, 0, 0], [0, 0, 0, 0], [0, 2, 0, 0]];
            Slide(b, LEFT) == [[2, 0, 0, 0], [0, 0, 0, 0], [0, 0, 0, 0], [2, 0, 0, 0]]
            && Slide(b, LEFT) != b && Points(b, LEFT) == 0
  {
    var b := ScenarioBoard();
    ScenarioSlide();
    ScenarioPoints();
    assert SlideLeft(b)[3] != b[3];
  }

  // ---------------------------------------------------------------------
  // Legal moves

  lemma {:induction false} FlaggedSpec(flags: seq<bool>, k: nat)
    requires k <= |flags|
    ensures forall d :: d in Flagged(flags, k) <==> 0 <= d < k && flags[d]
    ensures forall p, q :: 0 <= p < q < |Flagged(flags, k)| ==> Flagged(flags, k)[p] < Flagged(flags, k)[q]
  {
    if k > 0 {
      FlaggedSpec(flags, k - 1);
      var prev := Flagged(flags, k - 1);
      assert forall p :: 0 <= p < |prev| ==> prev[p] in prev;
    }
  }

  /** get_available_moves lists, in increasing order, exactly the
      directions that change the board. */
  lemma LegalMovesSpec(b: Board)
    ensures forall d :: d in LegalMoves(b) <==> 0 <= d < 4 && Slide(b, d) != b
    ensures forall p, q :: 0 <= p < q < |LegalMoves(b)| ==> LegalMoves(b)[p] < LegalMoves(b)[q]
  {
    FlaggedSpec(Changes(b), 4);
  }

  /** No flag set, no direction listed. */
  lemma {:induction false} FlaggedNone(flags: seq<bool>, k: nat)
    requires k <= |flags| && forall d :: 0 <= d < k ==> !flags[d]
    ensures Flagged(flags, k) == []
  {
    if k > 0 {
      FlaggedNone(flags, k - 1);
    }
  }

  /** A board with no rows has no legal move: every direction maps it to
      the empty board. */
  lemma NoRowsNoMoves(b: Board)
    ensures LegalMoves(b) != [] ==> |b| >= 1
  {
    if |b| == 0 {
      var f := Changes(b);
      forall d | 0 <= d < 4
        ensures !f[d]
      {
        assert |Slide(b, d)| == 0;
      }
      FlaggedNone(f, 4);
    }
  }

  /** LEFT is legal exactly when some row has a gap before a tile or two
      equal touching tiles. */
  lemma LeftLegalIff(b: Board)
    ensures Slide(b, LEFT) != b <==> exists i :: 0 <= i < |b| && !(Packed(b[i]) && !HasPair(b[i]))
  {
    forall i | 0 <= i < |b|
      ensures SlideLeft(b)[i] == b[i] <==> Packed(b[i]) && !HasPair(b[i])
    {
      SlideRowFixed(b[i]);
    }
    if SlideLeft(b) != b {
      var i :| 0 <= i < |b| && SlideLeft(b)[i] != b[i];
    }
  }
}
