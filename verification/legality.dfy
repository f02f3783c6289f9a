/** When is the game over? A direction is illegal exactly when every line
    it slides is already settled, and from that the board-level answer:
    no direction changes the board exactly when the board is empty, or it
    is full and no two equal tiles touch. */
module Legality {
  import opened Boards
  import opened Moves
  import opened MoveLaws

  /** A row a left slide leaves as it is. */
  predicate Settled(r: seq<int>) {
    Packed(r) && !HasPair(r)
  }

  predicate AllZero(b: Board) {
    forall i, j :: 0 <= i < |b| && 0 <= j < |b| ==> b[i][j] == 0
  }

  predicate Full(b: Board) {
    forall i, j :: 0 <= i < |b| && 0 <= j < |b| ==> b[i][j] != 0
  }

  /** Some row or column holds two equal touching tiles. */
  predicate Mergeable(b: Board) {
    exists k :: 0 <= k < |b| && (HasPair(b[k]) || HasPair(Column(b, k)))
  }

  lemma LeftFixedIff(b: Board)
    ensures Slide(b, LEFT) == b <==> forall i :: 0 <= i < |b| ==> Settled(b[i])
  {
    forall i | 0 <= i < |b|
      ensures SlideLeft(b)[i] == b[i] <==> Settled(b[i])
    {
      SlideRowFixed(b[i]);
    }
    if SlideLeft(b) != b {
      var i :| 0 <= i < |b| && SlideLeft(b)[i] != b[i];
    }
  }

  lemma RightFixedIff(b: Board)
    ensures Slide(b, RIGHT) == b <==> forall i :: 0 <= i < |b| ==> Settled(RevRow(b[i]))
  {
    var rb := Reverse(b);
    var moved := SlideLeft(rb);
    RightIs(b);
    ReverseCancel(moved, b);
    LeftFixedIff(rb);
    forall i | 0 <= i < |b|
      ensures rb[i] == RevRow(b[i])
    {
    }
  }

  lemma UpFixedIff(b: Board)
    ensures Slide(b, UP) == b <==> forall j :: 0 <= j < |b| ==> Settled(Column(b, j))
  {
    var tb := Transpose(b);
    var moved := SlideLeft(tb);
    UpIs(b);
    TransposeCancel(moved, b);
    LeftFixedIff(tb);
    assert forall j :: 0 <= j < |b| ==> tb[j] == Column(b, j);
  }

  lemma ReverseCancel(x: Board, y: Board)
    ensures Reverse(x) == y <==> x == Reverse(y)
  {
    ReverseInvolution(x);
    ReverseInvolution(y);
  }

  lemma TransposeCancel(x: Board, y: Board)
    ensures Transpose(x) == y <==> x == Transpose(y)
  {
    TransposeInvolution(x);
    TransposeInvolution(y);
  }

  lemma DownFixedIff(b: Board)
    ensures Slide(b, DOWN) == b <==> forall j :: 0 <= j < |b| ==> Settled(RevRow(Column(b, j)))
  {
    var tb := Transpose(b);
    var rtb := Reverse(tb);
    var moved := SlideLeft(rtb);
    DownIs(b);
    RightIs(tb);
    TransposeCancel(Reverse(moved), b);
    ReverseCancel(moved, tb);
    LeftFixedIff(rtb);
    assert forall j :: 0 <= j < |b| ==> rtb[j] == RevRow(Column(b, j));
  }

  lemma HasPairRev(r: seq<int>)
    ensures HasPair(RevRow(r)) <==> HasPair(r)
  {
    var n := |r|;
    var s := RevRow(r);
    if HasPair(r) {
      var j :| 0 <= j < n - 1 && r[j] != 0 && r[j] == r[j + 1];
      assert s[n - 2 - j] == r[j + 1] && s[n - 1 - j] == r[j];
    }
    if HasPair(s) {
      var j :| 0 <= j < n - 1 && s[j] != 0 && s[j] == s[j + 1];
      assert r[n - 2 - j] == s[j + 1] && r[n - 1 - j] == s[j];
    }
  }

  /** A line neither LEFT nor RIGHT can change is empty, or full with no
      two equal neighbours. */
  lemma SettledBothWays(r: seq<int>)
    ensures Settled(r) && Settled(RevRow(r)) <==>
            (forall k :: 0 <= k < |r| ==> r[k] == 0) ||
            ((forall k :: 0 <= k < |r| ==> r[k] != 0) && !HasPair(r))
  {
    var n := |r|;
    var s := RevRow(r);
    HasPairRev(r);
    if Settled(r) && Settled(s) {
      if exists k :: 0 <= k < n && r[k] == 0 {
        var k :| 0 <= k < n && r[k] == 0;
        forall l | 0 <= l < n
          ensures r[l] == 0
        {
          if l > k {
            assert r[l] == 0;
          } else if l < k {
            assert s[n - 1 - k] == 0;
            assert s[n - 1 - l] == r[l];
          }
        }
      }
    }
  }

  /** The game is over exactly when none of the four directions changes
      the board. */
  lemma GameOverAllFixed(b: Board)
    ensures GameOver(b) <==>
            Slide(b, UP) == b && Slide(b, RIGHT) == b && Slide(b, DOWN) == b && Slide(b, LEFT) == b
  {
    var f := Changes(b);
    FlaggedSpec(f, 4);
    assert f[UP] == (Slide(b, UP) != b) && f[RIGHT] == (Slide(b, RIGHT) != b);
    assert f[DOWN] == (Slide(b, DOWN) != b) && f[LEFT] == (Slide(b, LEFT) != b);
    var legal := Flagged(f, 4);
    if legal != [] {
      assert legal[0] in legal;
    }
    if f[UP] { assert UP in legal; }
    if f[RIGHT] { assert RIGHT in legal; }
    if f[DOWN] { assert DOWN in legal; }
    if f[LEFT] { assert LEFT in legal; }
  }

  /** The rows and the columns of a board that no direction changes. */
  lemma GameOverLines(b: Board)
    ensures GameOver(b) <==>
            forall k :: 0 <= k < |b| ==>
              Settled(b[k]) && Settled(RevRow(b[k])) &&
              Settled(Column(b, k)) && Settled(RevRow(Column(b, k)))
  {
    GameOverAllFixed(b);
    LeftFixedIff(b);
    RightFixedIff(b);
    UpFixedIff(b);
    DownFixedIff(b);
  }

  /** is_game_over holds exactly on an empty board, or on a full board where
      no two equal tiles touch. */
  lemma GameOverIff(b: Board)
    ensures GameOver(b) <==> AllZero(b) || (Full(b) && !Mergeable(b))
  {
    GameOverLines(b);
    forall k | 0 <= k < |b|
      ensures Settled(b[k]) && Settled(RevRow(b[k])) <==>
              (forall j :: 0 <= j < |b| ==> b[k][j] == 0) ||
              ((forall j :: 0 <= j < |b| ==> b[k][j] != 0) && !HasPair(b[k]))
      ensures Settled(Column(b, k)) && Settled(RevRow(Column(b, k))) <==>
              (forall i :: 0 <= i < |b| ==> Column(b, k)[i] == 0) ||
              ((forall i :: 0 <= i < |b| ==> Column(b, k)[i] != 0) && !HasPair(Column(b, k)))
    {
      SettledBothWays(b[k]);
      SettledBothWays(Column(b, k));
    }
    if GameOver(b) && !AllZero(b) {
      var i, j :| 0 <= i < |b| && 0 <= j < |b| && b[i][j] != 0;
      // Row i is full, so every column is full, so the board is full.
      assert forall l :: 0 <= l < |b| ==> b[i][l] != 0;
      forall p, q | 0 <= p < |b| && 0 <= q < |b|
        ensures b[p][q] != 0
      {
        assert Column(b, q)[i] == b[i][q];
        assert Column(b, q)[p] == b[p][q];
      }
    }
    if Full(b) && !Mergeable(b) {
      forall k | 0 <= k < |b|
        ensures forall i :: 0 <= i < |b| ==> Column(b, k)[i] != 0
      {
      }
    }
  }

  /** A board with two equal touching tiles always has a legal move. */
  lemma MergeableNotOver(b: Board)
    requires Mergeable(b)
    ensures !GameOver(b)
  {
    GameOverIff(b);
    var k :| 0 <= k < |b| && (HasPair(b[k]) || HasPair(Column(b, k)));
    if HasPair(b[k]) {
      var j :| 0 <= j < |b| - 1 && b[k][j] != 0 && b[k][j] == b[k][j + 1];
    } else {
      var c := Column(b, k);
      var j :| 0 <= j < |c| - 1 && c[j] != 0 && c[j] == c[j + 1];
      assert b[j][k] != 0;
    }
  }
}
