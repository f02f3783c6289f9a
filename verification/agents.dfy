/** ExpectimaxAgent and GreedyAgent. Each method is proved to return what
    the search functions of module Search (or the greedy choice below)
    define on the board of the game it is given, and ExpectimaxAgent is
    proved to count in nodesExplored exactly the nodes that search visits. */
module Agents {
  import opened Boards
  import opened Moves
  import opened Game
  import opened Heuristics
  import opened Search
  import opened MoveLaws

  /** ev is Heuristics.evaluate with the given weights on every board a
      game can hold (one with at least one row). */
  ghost predicate EvaluatesWith(ev: Evaluator, weights: Option<Weights>) {
    forall b: Board {:trigger Score(b, weights)} :: |b| >= 1 ==> ev(b) == Score(b, weights)
  }

  /** Heuristics.evaluate with the given weights, as a search evaluator;
      the empty board, where evaluate would fail, is given 0. */
  function Ev(weights: Option<Weights>): (ev: Evaluator)
    ensures EvaluatesWith(ev, weights)
  {
    (b: Board) => if |b| == 0 then 0.0 else Score(b, weights)
  }

  /** Heuristics.evaluate(board, weights), seen through an evaluator that
      agrees with it. */
  method EvaluateAs(board: Board, weights: Option<Weights>, ghost ev: Evaluator) returns (value: real)
    requires |board| >= 1 && EvaluatesWith(ev, weights)
    ensures value == ev(board)
  {
    value := Evaluate(board, weights);
  }

  /** test_game = game.clone(); test_game.move(move) */
  method MovedClone(game: Game2048, move: int) returns (testGame: Game2048)
    requires game.Valid()
    ensures fresh(testGame) && testGame.Valid() && testGame.size == game.size
    ensures testGame.board == Slide(game.board, move)
  {
    testGame := game.Clone();
    var moved, points := testGame.Move(move);
  }

  /** test_game = game.clone(); test_game.board[r][c] = tile */
  method PlacedClone(game: Game2048, c: Cell, tile: int) returns (testGame: Game2048)
    requires game.Valid() && InBoard(game.board, c)
    ensures fresh(testGame) && testGame.Valid() && testGame.size == game.size
    ensures testGame.board == Place(game.board, c, tile)
  {
    testGame := game.Clone();
    testGame.board := testGame.board[c.row := testGame.board[c.row][c.col := tile]];
  }

  /** A running best score, starting at float('-inf'). */
  datatype Extended = NegInf | Finite(value: real)

  /** score > best_score */
  predicate Beats(x: real, best: Extended) {
    best.NegInf? || x > best.value
  }

  /** best_move and best_score after scoring the first |seen| of the moves:
      nothing yet, or the first of them of highest score. */
  predicate Tracks(seen: seq<real>, moves: seq<int>, bestMove: Option<int>, bestScore: Extended)
    requires |seen| <= |moves|
  {
    if seen == [] then bestMove.None? && bestScore.NegInf?
    else bestMove == Some(moves[FirstArgMax(seen)]) && bestScore == Finite(seen[FirstArgMax(seen)])
  }

  /** A move replaces the best only when its score is strictly larger. */
  lemma TracksStep(seen: seq<real>, moves: seq<int>, bestMove: Option<int>, bestScore: Extended, score: real)
    requires |seen| < |moves| && Tracks(seen, moves, bestMove, bestScore)
    ensures Tracks(seen + [score], moves,
                   if Beats(score, bestScore) then Some(moves[|seen|]) else bestMove,
                   if Beats(score, bestScore) then Finite(score) else bestScore)
  {
    if seen != [] {
      FirstArgMaxSnoc(seen, score);
    }
  }

  /** max(max_score, score) */
  function MaxWith(best: Extended, x: real): real {
    if best.NegInf? then x else RealMax(best.value, x)
  }

  class ExpectimaxAgent {
    const depth: int
    const heuristicWeights: Option<Weights>
    var nodesExplored: int

    constructor (depth: int, heuristicWeights: Option<Weights>)
      ensures this.depth == depth && this.heuristicWeights == heuristicWeights
      ensures nodesExplored == 0
    {
      this.depth := depth;
      this.heuristicWeights := heuristicWeights;
      nodesExplored := 0;
    }

    /** Resets the node count and, when some move is legal, keeps the first
        legal move of best score; each move is scored by a chance node one
        ply shallower. */
    method GetBestMove(game: Game2048, pick: Sampler, ghost ev: Evaluator) returns (move: Option<int>)
      requires game.Valid() && depth >= 1 && SamplerOk(pick)
      requires EvaluatesWith(ev, heuristicWeights)
      modifies this
      ensures move == BestMove(game.board, depth, ev, pick)
      ensures nodesExplored == MaxNodes(game.board, depth, pick)
    {
      nodesExplored := 0;
      var availableMoves := game.GetAvailableMoves();
      if availableMoves == [] {
        return None;
      }
      NoRowsNoMoves(game.board);
      move := ChooseMove(game, availableMoves, pick, ev);
    }

    /** The best_move/best_score loop over the given moves: a move replaces
        the best only with a strictly larger score, so the first move of
        highest score is kept. */
    method ChooseMove(game: Game2048, moves: seq<int>, pick: Sampler, ghost ev: Evaluator) returns (move: Option<int>)
      requires game.Valid() && game.size >= 1 && depth >= 1 && SamplerOk(pick) && |moves| >= 1
      requires EvaluatesWith(ev, heuristicWeights)
      modifies this
      ensures move == Some(moves[FirstArgMax(MoveScores(game.board, moves, depth, ev, pick))])
      ensures nodesExplored == old(nodesExplored) + MovesNodes(game.board, moves, depth, pick)
    {
      ghost var b := game.board;
      ghost var seen: seq<real> := [];
      var bestMove: Option<int> := None;
      var bestScore: Extended := NegInf;
      for k := 0 to |moves|
        invariant seen == MoveScores(b, moves[..k], depth, ev, pick) && |seen| == k
        invariant Tracks(seen, moves, bestMove, bestScore)
        invariant nodesExplored == old(nodesExplored) + MovesNodes(b, moves[..k], depth, pick)
      {
        var score := ScoreMove(game, moves[k], depth, pick, ev);
        MoveScoresStep(b, moves, k, depth, ev, pick);
        MovesNodesStep(b, moves, k, depth, pick);
        TracksStep(seen, moves, bestMove, bestScore, score);
        if Beats(score, bestScore) {
          bestScore := Finite(score);
          bestMove := Some(moves[k]);
        }
        seen := seen + [score];
      }
      assert moves[..|moves|] == moves;
      move := bestMove;
    }

    /** _expectimax: counts itself, evaluates at depth 0 or on a finished
        game, and otherwise hands over to a decision or a chance node. */
    method Expectimax(game: Game2048, depth: nat, isMax: bool, pick: Sampler, ghost ev: Evaluator) returns (value: real)
      requires game.Valid() && game.size >= 1 && SamplerOk(pick)
      requires EvaluatesWith(ev, heuristicWeights)
      modifies this
      ensures value == Value(game.board, depth, isMax, ev, pick)
      ensures nodesExplored == old(nodesExplored) + Nodes(game.board, depth, isMax, pick)
      decreases depth, 3
    {
      nodesExplored := nodesExplored + 1;
      var over := false;
      if depth != 0 {
        over := game.IsGameOver();
      }
      if depth == 0 || over {
        value := EvaluateAs(game.board, heuristicWeights, ev);
      } else if isMax {
        value := MaxNode(game, depth, pick, ev);
      } else {
        value := ChanceNode(game, depth, pick, ev);
      }
    }

    /** _max_node: the largest chance-node value over the legal moves, or
        the evaluation when there is none. */
    method MaxNode(game: Game2048, depth: nat, pick: Sampler, ghost ev: Evaluator) returns (value: real)
      requires game.Valid() && game.size >= 1 && depth >= 1 && SamplerOk(pick)
      requires EvaluatesWith(ev, heuristicWeights)
      modifies this
      ensures value == MaxValue(game.board, depth, ev, pick)
      ensures nodesExplored == old(nodesExplored) + MaxNodes(game.board, depth, pick)
      decreases depth, 2
    {
      ghost var b := game.board;
      var maxScore: Extended := NegInf;
      var availableMoves := game.GetAvailableMoves();
      if availableMoves == [] {
        value := EvaluateAs(game.board, heuristicWeights, ev);
        return;
      }
      ghost var seen: seq<real> := [];
      for k := 0 to |availableMoves|
        invariant seen == MoveScores(b, availableMoves[..k], depth, ev, pick)
        invariant k == 0 ==> maxScore.NegInf?
        invariant k > 0 ==> maxScore == Finite(SeqMax(seen))
        invariant nodesExplored == old(nodesExplored) + MovesNodes(b, availableMoves[..k], depth, pick)
      {
        var score := ScoreMove(game, availableMoves[k], depth, pick, ev);
        MoveScoresStep(b, availableMoves, k, depth, ev, pick);
        MovesNodesStep(b, availableMoves, k, depth, pick);
        if k > 0 {
          SeqMaxSnoc(seen, score);
        }
        maxScore := Finite(MaxWith(maxScore, score));
        seen := seen + [score];
      }
      assert availableMoves[..|availableMoves|] == availableMoves;
      value := maxScore.value;
    }

    /** The body of the move loops of get_best_move and _max_node: a clone
        moved the given way, searched as a chance node one ply shallower. */
    method ScoreMove(game: Game2048, move: int, depth: nat, pick: Sampler, ghost ev: Evaluator) returns (score: real)
      requires game.Valid() && game.size >= 1 && depth >= 1 && SamplerOk(pick)
      requires EvaluatesWith(ev, heuristicWeights)
      modifies this
      ensures score == MoveValue(game.board, move, depth, ev, pick)
      ensures nodesExplored == old(nodesExplored) + MoveNodes(game.board, move, depth, pick)
      decreases depth, 0, 1
    {
      var testGame := MovedClone(game, move);
      score := Expectimax(testGame, depth - 1, false, pick, ev);
    }


    /** _chance_node: the mean, over the selected empty cells, of
        0.9 · (value with a 2 there) + 0.1 · (value with a 4 there). */
    method ChanceNode(game: Game2048, depth: nat, pick: Sampler, ghost ev: Evaluator) returns (value: real)
      requires game.Valid() && game.size >= 1 && depth >= 1 && SamplerOk(pick)
      requires EvaluatesWith(ev, heuristicWeights)
      modifies this
      ensures value == ChanceValue(game.board, depth, ev, pick)
      ensures nodesExplored == old(nodesExplored) + ChanceNodes(game.board, depth, pick)
      decreases depth, 2
    {
      ghost var b := game.board;
      var emptyCells := EmptyCells(game.board);
      if emptyCells == [] {
        value := EvaluateAs(game.board, heuristicWeights, ev);
        return;
      }
      var numEmpty := |emptyCells|;
      var sampledCells: seq<Cell>;
      if numEmpty > 6 && depth < 2 {
        sampledCells := pick(emptyCells, Min(4, numEmpty));
      } else {
        sampledCells := emptyCells;
      }
      SelectedSpec(b, depth, pick);
      assert sampledCells == Selected(emptyCells, depth, pick);
      var expectedScore := ExpectedSum(game, sampledCells, depth, pick, ev);
      value := expectedScore / |sampledCells| as real;
    }

    /** The expected_score loop of _chance_node: cell_expected added up over
        the given cells, in order. */
    method ExpectedSum(game: Game2048, cells: seq<Cell>, depth: nat, pick: Sampler, ghost ev: Evaluator) returns (expectedScore: real)
      requires game.Valid() && game.size >= 1 && depth >= 1 && SamplerOk(pick)
      requires forall c :: c in cells ==> InBoard(game.board, c)
      requires EvaluatesWith(ev, heuristicWeights)
      modifies this
      ensures expectedScore == SumChance(game.board, cells, depth, ev, pick)
      ensures nodesExplored == old(nodesExplored) + CellsNodes(game.board, cells, depth, pick)
      decreases depth, 1
    {
      ghost var b := game.board;
      expectedScore := 0.0;
      for k := 0 to |cells|
        invariant expectedScore == SumChance(b, cells[..k], depth, ev, pick)
        invariant nodesExplored == old(nodesExplored) + CellsNodes(b, cells[..k], depth, pick)
      {
        var c := cells[k];
        assert c in cells;
        var cellExpected := CellExpected(game, c, depth, pick, ev);
        expectedScore := expectedScore + cellExpected;
        SumChanceStep(b, cells, k, depth, ev, pick);
      }
      assert cells[..|cells|] == cells;
    }

    /** The body of _chance_node's loop for one cell: a clone with a 2
        there and a clone with a 4 there, each a decision node one ply
        shallower, weighted 0.9 and 0.1. */
    method CellExpected(game: Game2048, c: Cell, depth: nat, pick: Sampler, ghost ev: Evaluator) returns (cellExpected: real)
      requires game.Valid() && game.size >= 1 && depth >= 1 && SamplerOk(pick) && InBoard(game.board, c)
      requires EvaluatesWith(ev, heuristicWeights)
      modifies this
      ensures cellExpected == CellValue(game.board, c, depth, ev, pick)
      ensures nodesExplored == old(nodesExplored) + CellNodes(game.board, c, depth, pick)
      decreases depth, 0, 1
    {
      var score2 := TileScore(game, c, 2, depth, pick, ev);
      var score4 := TileScore(game, c, 4, depth, pick, ev);
      cellExpected := 0.9 * score2 + 0.1 * score4;
    }

    /** One half of cell_expected: a clone with the given tile in cell c,
        searched as a decision node one ply shallower. */
    method TileScore(game: Game2048, c: Cell, tile: int, depth: nat, pick: Sampler, ghost ev: Evaluator) returns (score: real)
      requires game.Valid() && game.size >= 1 && depth >= 1 && SamplerOk(pick) && InBoard(game.board, c)
      requires EvaluatesWith(ev, heuristicWeights)
      modifies this
      ensures score == Value(Place(game.board, c, tile), depth - 1, true, ev, pick)
      ensures nodesExplored == old(nodesExplored) + Nodes(Place(game.board, c, tile), depth - 1, true, pick)
      decreases depth, 0, 0
    {
      ghost var placed := Place(game.board, c, tile);
      var testGame := PlacedClone(game, c, tile);
      assert testGame.board == placed;
      score := Expectimax(testGame, depth - 1, true, pick, ev);
    }

  }

  /** What GreedyAgent gives move m: the points a clone earns by it plus
      the evaluation of the board the clone is left with. */
  function GreedyScore(b: Board, m: int, ev: Evaluator): real {
    Points(b, m) as real + ev(Slide(b, m))
  }

  /** The score GreedyAgent gives each of the given moves: the points it
      earns plus the evaluation of the board it leads to. */
  function GreedyScores(b: Board, moves: seq<int>, ev: Evaluator): (s: seq<real>)
    ensures |s| == |moves|
  {
    if moves == [] then []
    else
      var m := moves[|moves| - 1];
      GreedyScores(b, moves[..|moves| - 1], ev) + [GreedyScore(b, m, ev)]
  }

  lemma {:induction false} GreedyScoreAt(b: Board, moves: seq<int>, ev: Evaluator, i: nat)
    requires i < |moves|
    ensures GreedyScores(b, moves, ev)[i] == GreedyScore(b, moves[i], ev)
  {
    var n := |moves|;
    if i < n - 1 {
      GreedyScoreAt(b, moves[..n - 1], ev, i);
    }
  }

  /** One more move scored by GreedyAgent. */
  lemma GreedyScoresStep(b: Board, moves: seq<int>, k: nat, ev: Evaluator)
    requires k < |moves|
    ensures GreedyScores(b, moves[..k + 1], ev) ==
            GreedyScores(b, moves[..k], ev) + [GreedyScore(b, moves[k], ev)]
  {
    assert moves[..k + 1][..k] == moves[..k];
  }

  /** GreedyAgent.get_best_move: None without legal moves, else the first
      legal move of highest greedy score. */
  function GreedyMove(b: Board, ev: Evaluator): Option<int> {
    var moves := LegalMoves(b);
    if moves == [] then None else Some(moves[FirstArgMax(GreedyScores(b, moves, ev))])
  }

  /** The greedy choice is None exactly when no move is legal; otherwise a
      legal move whose immediate points plus evaluation is at least that of
      every legal move and strictly above that of every smaller legal
      direction. */
  lemma GreedyMoveSpec(b: Board, ev: Evaluator)
    ensures GreedyMove(b, ev).None? <==> LegalMoves(b) == []
    ensures GreedyMove(b, ev).Some? ==>
              var m := GreedyMove(b, ev).value;
              var v := GreedyScore(b, m, ev);
              m in LegalMoves(b) &&
              (forall d :: d in LegalMoves(b) ==> GreedyScore(b, d, ev) <= v) &&
              (forall d :: d in LegalMoves(b) && d < m ==> GreedyScore(b, d, ev) < v)
  {
    var moves := LegalMoves(b);
    LegalMovesSorted(b);
    if moves != [] {
      var s := GreedyScores(b, moves, ev);
      var k := FirstArgMax(s);
      FirstArgMaxSpec(s);
      GreedyScoreAt(b, moves, ev, k);
      forall d | d in moves
        ensures GreedyScore(b, d, ev) <= s[k]
        ensures d < moves[k] ==> GreedyScore(b, d, ev) < s[k]
      {
        var i :| 0 <= i < |moves| && moves[i] == d;
        GreedyScoreAt(b, moves, ev, i);
        assert i > k ==> moves[k] < moves[i];
      }
    }
  }

  class GreedyAgent {
    constructor () {
    }

    /** Scores each legal move by its points plus the default evaluation of
        the moved board; only a strictly better score replaces the best. */
    method GetBestMove(game: Game2048, ghost ev: Evaluator) returns (move: Option<int>)
      requires game.Valid() && EvaluatesWith(ev, None)
      ensures move == GreedyMove(game.board, ev)
    {
      var availableMoves := game.GetAvailableMoves();
      ghost var b := game.board;
      if availableMoves == [] {
        return None;
      }
      NoRowsNoMoves(b);
      move := ChooseMove(game, availableMoves, ev);
    }

    /** The best_move/best_score loop over the given moves, each scored by
        its points plus the default evaluation; a move replaces the best
        only with a strictly larger score. */
    method ChooseMove(game: Game2048, moves: seq<int>, ghost ev: Evaluator) returns (move: Option<int>)
      requires game.Valid() && game.size >= 1 && |moves| >= 1 && EvaluatesWith(ev, None)
      ensures move == Some(moves[FirstArgMax(GreedyScores(game.board, moves, ev))])
    {
      ghost var b := game.board;
      ghost var seen: seq<real> := [];
      var bestMove: Option<int> := None;
      var bestScore: Extended := NegInf;
      for k := 0 to |moves|
        invariant seen == GreedyScores(b, moves[..k], ev) && |seen| == k
        invariant Tracks(seen, moves, bestMove, bestScore)
      {
        var score := ScoreMove(game, moves[k], ev);
        GreedyScoresStep(b, moves, k, ev);
        TracksStep(seen, moves, bestMove, bestScore, score);
        if Beats(score, bestScore) {
          bestScore := Finite(score);
          bestMove := Some(moves[k]);
        }
        seen := seen + [score];
      }
      assert moves[..|moves|] == moves;
      move := bestMove;
    }

    /** The body of the move loop: the points a clone earns by the move plus
        the default evaluation of the board it is left with. */
    method ScoreMove(game: Game2048, move: int, ghost ev: Evaluator) returns (score: real)
      requires game.Valid() && game.size >= 1 && EvaluatesWith(ev, None)
      ensures score == GreedyScore(game.board, move, ev)
    {
      var testGame := game.Clone();
      var moved, points := testGame.Move(move);
      var evaluation := EvaluateAs(testGame.board, None, ev);
      score := points as real + evaluation;
    }
  }
}
