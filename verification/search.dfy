/** The value ExpectimaxAgent computes, as functions on board values. The
    evaluator is a parameter (the agent passes Heuristics.evaluate), and so
    is random.sample, as a sampler constrained to do what random.sample
    promises. Decision nodes take the maximum over legal moves; chance
    nodes take the mean over the selected empty cells of 0.9·v(2) +
    0.1·v(4). */
module Search {
  import opened Boards
  import opened Moves
  import opened MoveLaws

  type Evaluator = Board -> real

  /** random.sample(population, k), resolved by the caller. */
  type Sampler = (seq<Cell>, nat) -> seq<Cell>

  predicate Distinct(cs: seq<Cell>) {
    forall p, q :: 0 <= p < q < |cs| ==> cs[p] != cs[q]
  }

  /** random.sample(population, k) with 1 <= k <= len(population): k
      members of the population taken from k different positions, so they
      are distinct whenever the population's members are. */
  ghost predicate SamplerOk(pick: Sampler) {
    forall cells: seq<Cell>, k: nat {:trigger pick(cells, k)} :: 1 <= k <= |cells| ==>
      |pick(cells, k)| == k &&
      (forall c :: c in pick(cells, k) ==> c in cells) &&
      (Distinct(cells) ==> Distinct(pick(cells, k)))
  }

  /** Taking the first k members, one of the samples random.sample can
      return. */
  function TakeFirst(cells: seq<Cell>, k: nat): seq<Cell> {
    if k <= |cells| then cells[..k] else cells
  }

  /** Some sampler meets SamplerOk, so the search functions and lemmas that
      require it apply. */
  lemma {:induction false} SamplerOkWitness()
    ensures SamplerOk(TakeFirst)
  {
    forall cells: seq<Cell>, k: nat | 1 <= k <= |cells|
      ensures |TakeFirst(cells, k)| == k
      ensures forall c :: c in TakeFirst(cells, k) ==> c in cells
      ensures Distinct(cells) ==> Distinct(TakeFirst(cells, k))
    {
      var s := TakeFirst(cells, k);
      assert s == cells[..k];
      forall c | c in s
        ensures c in cells
      {
        var i :| 0 <= i < |s| && s[i] == c;
        assert cells[i] == c;
      }
    }
  }

  function Min(x: int, y: int): int {
    if x <= y then x else y
  }

  /** The cells a chance node expands: a sample of min(4, count) of them
      when more than 6 cells are empty and fewer than 2 plies remain, all of
      them otherwise. */
  function Selected(cells: seq<Cell>, depth: int, pick: Sampler): seq<Cell> {
    if |cells| > 6 && depth < 2 then pick(cells, Min(4, |cells|)) else cells
  }

  lemma SelectedSpec(b: Board, depth: int, pick: Sampler)
    requires SamplerOk(pick)
    ensures var cells := EmptyCells(b);
            var s := Selected(cells, depth, pick);
            |s| == (if |cells| > 6 && depth < 2 then 4 else |cells|) &&
            (cells != [] ==> 1 <= |s| <= |cells|) &&
            Distinct(s) &&
            forall c :: c in s ==> InBoard(b, c) && b[c.row][c.col] == 0
  {
    var cells := EmptyCells(b);
    var s := Selected(cells, depth, pick);
    forall p, q | 0 <= p < q < |cells|
      ensures cells[p] != cells[q]
    {
      assert Before(cells[p], cells[q]);
    }
    if |cells| > 6 && depth < 2 {
      assert |pick(cells, Min(4, |cells|))| == 4;
    }
  }

  // ---------------------------------------------------------------------
  // Values

  /** _expectimax(board, depth, is_max_node). */
  function Value(b: Board, depth: nat, isMax: bool, ev: Evaluator, pick: Sampler): real
    requires SamplerOk(pick)
    decreases depth, 4
  {
    if depth == 0 then ev(b) else Expand(b, depth, isMax, ev, pick)
  }

  /** _expectimax with plies left: evaluate a finished game, otherwise a
      decision or a chance node. */
  function Expand(b: Board, depth: nat, isMax: bool, ev: Evaluator, pick: Sampler): real
    requires SamplerOk(pick) && depth >= 1
    decreases depth, 3
  {
    if GameOver(b) then ev(b)
    else if isMax then MaxValue(b, depth, ev, pick)
    else ChanceValue(b, depth, ev, pick)
  }

  /** _max_node: the largest score over the legal moves. */
  function MaxValue(b: Board, depth: nat, ev: Evaluator, pick: Sampler): real
    requires SamplerOk(pick) && depth >= 1
    decreases depth, 2
  {
    var moves := LegalMoves(b);
    if moves == [] then ev(b) else SeqMax(MoveScores(b, moves, depth, ev, pick))
  }

  /** The score of each of the given moves, in order: the value of a clone
      of b moved that way. */
  function MoveScores(b: Board, moves: seq<int>, depth: nat, ev: Evaluator, pick: Sampler): (s: seq<real>)
    requires SamplerOk(pick) && depth >= 1
    ensures |s| == |moves|
    decreases depth, 1, |moves|
  {
    if moves == [] then []
    else
      MoveScores(b, moves[..|moves| - 1], depth, ev, pick) +
      [MoveValue(b, moves[|moves| - 1], depth, ev, pick)]
  }

  /** The score of move m from b: _expectimax of a chance node one ply
      shallower on a clone of b moved that way. */
  function MoveValue(b: Board, m: int, depth: nat, ev: Evaluator, pick: Sampler): real
    requires SamplerOk(pick) && depth >= 1
    decreases depth, 0
  {
    Value(Slide(b, m), depth - 1, false, ev, pick)
  }

  /** Python's max(a, b): a unless b is larger. */
  function RealMax(a: real, b: real): real {
    if a >= b then a else b
  }

  /** max_score = max(max_score, score) folded over the scores in order,
      starting from float('-inf'). */
  function SeqMax(s: seq<real>): real
    requires |s| >= 1
  {
    if |s| == 1 then s[0] else RealMax(SeqMax(s[..|s| - 1]), s[|s| - 1])
  }

  /** _chance_node: the mean over the selected cells. */
  function ChanceValue(b: Board, depth: nat, ev: Evaluator, pick: Sampler): real
    requires SamplerOk(pick) && depth >= 1
    decreases depth, 2
  {
    var cells := EmptyCells(b);
    if cells == [] then ev(b)
    else
      var sampled := Selected(cells, depth, pick);
      SelectedSpec(b, depth, pick);
      SumChance(b, sampled, depth, ev, pick) / |sampled| as real
  }

  /** expected_score after the given cells: each adds 0.9·v(2) + 0.1·v(4),
      where v is a decision node one ply shallower. */
  function SumChance(b: Board, cs: seq<Cell>, depth: nat, ev: Evaluator, pick: Sampler): real
    requires SamplerOk(pick) && depth >= 1
    requires forall c :: c in cs ==> InBoard(b, c)
    decreases depth, 1, |cs|
  {
    if cs == [] then 0.0
    else
      var c := cs[|cs| - 1];
      SumChance(b, cs[..|cs| - 1], depth, ev, pick) + CellValue(b, c, depth, ev, pick)
  }

  /** cell_expected: a 2 in cell c with weight 0.9, a 4 with weight 0.1. */
  function CellValue(b: Board, c: Cell, depth: nat, ev: Evaluator, pick: Sampler): real
    requires SamplerOk(pick) && depth >= 1 && InBoard(b, c)
    decreases depth, 0
  {
    0.9 * Value(Place(b, c, 2), depth - 1, true, ev, pick) +
    0.1 * Value(Place(b, c, 4), depth - 1, true, ev, pick)
  }

  // ---------------------------------------------------------------------
  // The root decision

  /** The value of each legal move at the root, in the order of
      get_available_moves. */
  function RootScores(b: Board, depth: nat, ev: Evaluator, pick: Sampler): (s: seq<real>)
    requires SamplerOk(pick) && depth >= 1
    ensures |s| == |LegalMoves(b)|
  {
    MoveScores(b, LegalMoves(b), depth, ev, pick)
  }

  lemma {:induction false} MoveScoresAt(b: Board, moves: seq<int>, depth: nat, ev: Evaluator, pick: Sampler, i: nat)
    requires SamplerOk(pick) && depth >= 1 && i < |moves|
    ensures MoveScores(b, moves, depth, ev, pick)[i] == MoveValue(b, moves[i], depth, ev, pick)
  {
    var n := |moves|;
    if i < n - 1 {
      MoveScoresAt(b, moves[..n - 1], depth, ev, pick, i);
    }
  }

  /** The index the best_move/best_score loop ends on: a later score
      replaces the best only when it is strictly larger. */
  function FirstArgMax(s: seq<real>): (k: nat)
    requires |s| >= 1
    ensures k < |s|
  {
    if |s| == 1 then 0
    else
      var k := FirstArgMax(s[..|s| - 1]);
      if s[|s| - 1] > s[k] then |s| - 1 else k
  }

  /** That index is the first position of a maximum. */
  lemma {:induction false} FirstArgMaxSpec(s: seq<real>)
    requires |s| >= 1
    ensures forall i :: 0 <= i < |s| ==> s[i] <= s[FirstArgMax(s)]
    ensures forall i :: 0 <= i < FirstArgMax(s) ==> s[i] < s[FirstArgMax(s)]
  {
    if |s| > 1 {
      var front := s[..|s| - 1];
      FirstArgMaxSpec(front);
      assert forall i :: 0 <= i < |s| - 1 ==> front[i] == s[i];
    }
  }

  /** get_best_move: None without legal moves, else the first legal move of
      best value. */
  function BestMove(b: Board, depth: nat, ev: Evaluator, pick: Sampler): Option<int>
    requires SamplerOk(pick) && depth >= 1
  {
    var moves := LegalMoves(b);
    if moves == [] then None else Some(moves[FirstArgMax(RootScores(b, depth, ev, pick))])
  }

  /** get_best_move returns None exactly when no move is legal; otherwise a
      legal move whose chance-node value is at least that of every legal
      move and strictly above that of every smaller legal direction. */
  lemma BestMoveSpec(b: Board, depth: nat, ev: Evaluator, pick: Sampler)
    requires SamplerOk(pick) && depth >= 1
    ensures BestMove(b, depth, ev, pick).None? <==> LegalMoves(b) == []
    ensures BestMove(b, depth, ev, pick).Some? ==>
              var m := BestMove(b, depth, ev, pick).value;
              var v := MoveValue(b, m, depth, ev, pick);
              m in LegalMoves(b) &&
              (forall d :: d in LegalMoves(b) ==> MoveValue(b, d, depth, ev, pick) <= v) &&
              (forall d :: d in LegalMoves(b) && d < m ==> MoveValue(b, d, depth, ev, pick) < v)
  {
    var moves := LegalMoves(b);
    LegalMovesSorted(b);
    if moves != [] {
      var s := RootScores(b, depth, ev, pick);
      var k := FirstArgMax(s);
      FirstArgMaxSpec(s);
      RootScoreAt(b, depth, ev, pick, k);
      forall d | d in moves
        ensures MoveValue(b, d, depth, ev, pick) <= s[k]
        ensures d < moves[k] ==> MoveValue(b, d, depth, ev, pick) < s[k]
      {
        var i :| 0 <= i < |moves| && moves[i] == d;
        RootScoreAt(b, depth, ev, pick, i);
        assert i > k ==> moves[k] < moves[i];
      }
    }
  }

  lemma LegalMovesSorted(b: Board)
    ensures forall p, q :: 0 <= p < q < |LegalMoves(b)| ==> LegalMoves(b)[p] < LegalMoves(b)[q]
  {
    LegalMovesSpec(b);
  }

  /** The i-th root score is the chance value of the i-th legal move. */
  lemma RootScoreAt(b: Board, depth: nat, ev: Evaluator, pick: Sampler, i: nat)
    requires SamplerOk(pick) && depth >= 1 && i < |LegalMoves(b)|
    ensures RootScores(b, depth, ev, pick)[i] == MoveValue(b, LegalMoves(b)[i], depth, ev, pick)
  {
    MoveScoresAt(b, LegalMoves(b), depth, ev, pick, i);
  }

  /** One more score seen: the argmax moves to it only when it is strictly
      larger than the best so far. */
  lemma FirstArgMaxSnoc(s: seq<real>, x: real)
    requires |s| >= 1
    ensures FirstArgMax(s + [x]) == if x > s[FirstArgMax(s)] then |s| else FirstArgMax(s)
  {
    assert (s + [x])[..|s|] == s;
  }

  /** One more move scored: the scores of a prefix of the moves grow by the
      value of the next move. */
  lemma MoveScoresStep(b: Board, moves: seq<int>, k: nat, depth: nat, ev: Evaluator, pick: Sampler)
    requires SamplerOk(pick) && depth >= 1 && k < |moves|
    ensures MoveScores(b, moves[..k + 1], depth, ev, pick) ==
            MoveScores(b, moves[..k], depth, ev, pick) + [MoveValue(b, moves[k], depth, ev, pick)]
  {
    assert moves[..k + 1][..k] == moves[..k];
  }

  // ---------------------------------------------------------------------
  // Decision values

  /** The fold of _max_node returns one of the scores, and none of them is
      larger. */
  lemma {:induction false} SeqMaxSpec(s: seq<real>)
    requires |s| >= 1
    ensures forall i :: 0 <= i < |s| ==> s[i] <= SeqMax(s)
    ensures exists i :: 0 <= i < |s| && SeqMax(s) == s[i]
  {
    var n := |s|;
    if n > 1 {
      var front := s[..n - 1];
      SeqMaxSpec(front);
      assert forall i :: 0 <= i < n - 1 ==> front[i] == s[i];
      var i :| 0 <= i < n - 1 && SeqMax(front) == front[i];
      if SeqMax(front) < s[n - 1] {
        i := n - 1;
      }
      assert SeqMax(s) == s[i];
    } else {
      assert SeqMax(s) == s[0];
    }
  }

  /** One more score seen: the running maximum takes it when it is larger. */
  lemma SeqMaxSnoc(s: seq<real>, x: real)
    requires |s| >= 1
    ensures SeqMax(s + [x]) == RealMax(SeqMax(s), x)
  {
    assert (s + [x])[..|s|] == s;
  }

  /** The score get_best_move keeps is the one _max_node computes over the
      same scores. */
  lemma FirstArgMaxIsMax(s: seq<real>)
    requires |s| >= 1
    ensures s[FirstArgMax(s)] == SeqMax(s)
  {
    FirstArgMaxSpec(s);
    SeqMaxSpec(s);
  }

  /** The move get_best_move picks is worth exactly what a decision node on
      the same board is worth. */
  lemma BestMoveAttains(b: Board, depth: nat, ev: Evaluator, pick: Sampler)
    requires SamplerOk(pick) && depth >= 1
    ensures BestMove(b, depth, ev, pick).Some? ==>
              MoveValue(b, BestMove(b, depth, ev, pick).value, depth, ev, pick) ==
              MaxValue(b, depth, ev, pick)
  {
    var moves := LegalMoves(b);
    if moves != [] {
      var s := RootScores(b, depth, ev, pick);
      var k := FirstArgMax(s);
      FirstArgMaxIsMax(s);
      RootScoreAt(b, depth, ev, pick, k);
    }
  }

  /** With a single legal move, get_best_move returns it at every depth. */
  lemma OnlyMove(b: Board, depth: nat, ev: Evaluator, pick: Sampler)
    requires SamplerOk(pick) && depth >= 1 && |LegalMoves(b)| == 1
    ensures BestMove(b, depth, ev, pick) == Some(LegalMoves(b)[0])
  {
    assert |RootScores(b, depth, ev, pick)| == 1;
  }

  /** A decision node is worth the best of its legal moves, or the
      evaluation when it has none. */
  lemma MaxValueSpec(b: Board, depth: nat, ev: Evaluator, pick: Sampler)
    requires SamplerOk(pick) && depth >= 1
    ensures LegalMoves(b) == [] ==> MaxValue(b, depth, ev, pick) == ev(b)
    ensures forall d :: d in LegalMoves(b) ==>
              MoveValue(b, d, depth, ev, pick) <= MaxValue(b, depth, ev, pick)
    ensures LegalMoves(b) != [] ==>
              exists d :: d in LegalMoves(b) &&
                MaxValue(b, depth, ev, pick) == MoveValue(b, d, depth, ev, pick)
  {
    var moves := LegalMoves(b);
    if moves != [] {
      var s := MoveScores(b, moves, depth, ev, pick);
      SeqMaxSpec(s);
      forall d | d in moves
        ensures MoveValue(b, d, depth, ev, pick) <= MaxValue(b, depth, ev, pick)
      {
        var i :| 0 <= i < |moves| && moves[i] == d;
        MoveScoresAt(b, moves, depth, ev, pick, i);
      }
      var k :| 0 <= k < |s| && SeqMax(s) == s[k];
      MoveScoresAt(b, moves, depth, ev, pick, k);
      assert moves[k] in moves;
    }
  }

  // ---------------------------------------------------------------------
  // Bounds: values stay within the evaluator's range

  ghost predicate EvBounded(ev: Evaluator, lo: real, hi: real) {
    forall b: Board :: lo <= ev(b) <= hi
  }

  /** n copies of x added up. */
  function Scale(n: nat, x: real): real {
    if n == 0 then 0.0 else Scale(n - 1, x) + x
  }

  lemma {:induction false} ScaleIsProduct(n: nat, x: real)
    ensures Scale(n, x) == n as real * x
  {
    if n > 0 {
      ScaleIsProduct(n - 1, x);
      assert (n - 1) as real * x + x == n as real * x;
    }
  }

  /** The mean of n values in [lo, hi] is in [lo, hi]. */
  lemma MeanBounds(sum: real, n: nat, lo: real, hi: real)
    requires n >= 1 && Scale(n, lo) <= sum <= Scale(n, hi)
    ensures lo <= sum / n as real <= hi
  {
    ScaleIsProduct(n, lo);
    ScaleIsProduct(n, hi);
    var m := sum / n as real;
    assert m * n as real == sum;
    assert (m - lo) * n as real >= 0.0;
    assert (hi - m) * n as real >= 0.0;
  }

  lemma {:induction false} ValueBounds(b: Board, depth: nat, isMax: bool, ev: Evaluator, pick: Sampler, lo: real, hi: real)
    requires SamplerOk(pick) && EvBounded(ev, lo, hi)
    ensures lo <= Value(b, depth, isMax, ev, pick) <= hi
    decreases depth, 3
  {
    if depth > 0 {
      ExpandBounds(b, depth, isMax, ev, pick, lo, hi);
    }
  }

  lemma {:induction false} ExpandBounds(b: Board, depth: nat, isMax: bool, ev: Evaluator, pick: Sampler, lo: real, hi: real)
    requires SamplerOk(pick) && EvBounded(ev, lo, hi) && depth >= 1
    ensures lo <= Expand(b, depth, isMax, ev, pick) <= hi
    decreases depth, 2
  {
    if GameOver(b) {
    } else if isMax {
      MaxValueBounds(b, depth, ev, pick, lo, hi);
    } else {
      ChanceValueBounds(b, depth, ev, pick, lo, hi);
    }
  }

  lemma {:induction false} MaxValueBounds(b: Board, depth: nat, ev: Evaluator, pick: Sampler, lo: real, hi: real)
    requires SamplerOk(pick) && EvBounded(ev, lo, hi) && depth >= 1
    ensures lo <= MaxValue(b, depth, ev, pick) <= hi
    decreases depth, 1
  {
    var moves := LegalMoves(b);
    if moves != [] {
      var s := MoveScores(b, moves, depth, ev, pick);
      SeqMaxSpec(s);
      var k :| 0 <= k < |s| && SeqMax(s) == s[k];
      MoveScoresAt(b, moves, depth, ev, pick, k);
      MoveValueBounds(b, moves[k], depth, ev, pick, lo, hi);
    }
  }

  lemma {:induction false} ChanceValueBounds(b: Board, depth: nat, ev: Evaluator, pick: Sampler, lo: real, hi: real)
    requires SamplerOk(pick) && EvBounded(ev, lo, hi) && depth >= 1
    ensures lo <= ChanceValue(b, depth, ev, pick) <= hi
    decreases depth, 1
  {
    var cells := EmptyCells(b);
    if cells != [] {
      var sampled := Selected(cells, depth, pick);
      SelectedSpec(b, depth, pick);
      var sum := SumChance(b, sampled, depth, ev, pick);
      SumChanceBounds(b, sampled, depth, ev, pick, lo, hi);
      MeanBounds(sum, |sampled|, lo, hi);
      assert ChanceValue(b, depth, ev, pick) == sum / |sampled| as real;
    }
  }

  lemma {:induction false} SumChanceBounds(b: Board, cs: seq<Cell>, depth: nat, ev: Evaluator, pick: Sampler, lo: real, hi: real)
    requires SamplerOk(pick) && EvBounded(ev, lo, hi) && depth >= 1
    requires forall c :: c in cs ==> InBoard(b, c)
    ensures Scale(|cs|, lo) <= SumChance(b, cs, depth, ev, pick) <= Scale(|cs|, hi)
    decreases depth, 0, |cs|
  {
    if cs != [] {
      var n := |cs|;
      var c := cs[n - 1];
      assert c in cs;
      SumChanceBounds(b, cs[..n - 1], depth, ev, pick, lo, hi);
      CellValueBounds(b, c, depth, ev, pick, lo, hi);
    }
  }

  /** One more cell added to a chance node's running sum and count. */
  lemma SumChanceStep(b: Board, cs: seq<Cell>, k: nat, depth: nat, ev: Evaluator, pick: Sampler)
    requires SamplerOk(pick) && depth >= 1 && k < |cs|
    requires forall c :: c in cs ==> InBoard(b, c)
    ensures SumChance(b, cs[..k + 1], depth, ev, pick) ==
            SumChance(b, cs[..k], depth, ev, pick) + CellValue(b, cs[k], depth, ev, pick)
    ensures CellsNodes(b, cs[..k + 1], depth, pick) ==
            CellsNodes(b, cs[..k], depth, pick) + CellNodes(b, cs[k], depth, pick)
  {
    assert cs[..k + 1][..k] == cs[..k];
  }

  /** One more move taken into a decision node's count. */
  lemma MovesNodesStep(b: Board, moves: seq<int>, k: nat, depth: nat, pick: Sampler)
    requires SamplerOk(pick) && depth >= 1 && k < |moves|
    ensures MovesNodes(b, moves[..k + 1], depth, pick) ==
            MovesNodes(b, moves[..k], depth, pick) + MoveNodes(b, moves[k], depth, pick)
  {
    assert moves[..k + 1][..k] == moves[..k];
  }

  lemma {:induction false} MoveValueBounds(b: Board, m: int, depth: nat, ev: Evaluator, pick: Sampler, lo: real, hi: real)
    requires SamplerOk(pick) && EvBounded(ev, lo, hi) && depth >= 1
    ensures lo <= MoveValue(b, m, depth, ev, pick) <= hi
    decreases depth, 0, 0
  {
    var child := Slide(b, m);
    assert MoveValue(b, m, depth, ev, pick) == Value(child, depth - 1, false, ev, pick);
    ValueBounds(child, depth - 1, false, ev, pick, lo, hi);
  }

  lemma {:induction false} CellValueBounds(b: Board, c: Cell, depth: nat, ev: Evaluator, pick: Sampler, lo: real, hi: real)
    requires SamplerOk(pick) && EvBounded(ev, lo, hi) && depth >= 1 && InBoard(b, c)
    ensures lo <= CellValue(b, c, depth, ev, pick) <= hi
    decreases depth, 0, 0
  {
    var two := Place(b, c, 2);
    var four := Place(b, c, 4);
    var v2 := Value(two, depth - 1, true, ev, pick);
    var v4 := Value(four, depth - 1, true, ev, pick);
    assert CellValue(b, c, depth, ev, pick) == 0.9 * v2 + 0.1 * v4;
    ValueBounds(two, depth - 1, true, ev, pick, lo, hi);
    ValueBounds(four, depth - 1, true, ev, pick, lo, hi);
  }

  // ---------------------------------------------------------------------
  // Nodes explored

  /** The calls of _expectimax made by _expectimax(board, depth, is_max_node),
      itself included. */
  function Nodes(b: Board, depth: nat, isMax: bool, pick: Sampler): nat
    requires SamplerOk(pick)
    decreases depth, 4
  {
    1 + (if depth == 0 then 0 else ExpandNodes(b, depth, isMax, pick))
  }

  /** Calls below an _expectimax call with plies left: none for a finished
      game, otherwise those of its decision or chance node. */
  function ExpandNodes(b: Board, depth: nat, isMax: bool, pick: Sampler): nat
    requires SamplerOk(pick) && depth >= 1
    decreases depth, 3
  {
    if GameOver(b) then 0
    else if isMax then MaxNodes(b, depth, pick)
    else ChanceNodes(b, depth, pick)
  }

  /** Calls made by _max_node: one chance node per legal move. */
  function MaxNodes(b: Board, depth: nat, pick: Sampler): nat
    requires SamplerOk(pick) && depth >= 1
    decreases depth, 2
  {
    MovesNodes(b, LegalMoves(b), depth, pick)
  }

  /** Calls made for the given moves, each a chance node on a clone of b
      moved that way. */
  function MovesNodes(b: Board, moves: seq<int>, depth: nat, pick: Sampler): nat
    requires SamplerOk(pick) && depth >= 1
    decreases depth, 1, |moves|
  {
    if moves == [] then 0
    else MovesNodes(b, moves[..|moves| - 1], depth, pick) +
         MoveNodes(b, moves[|moves| - 1], depth, pick)
  }

  /** Calls made for move m from b: a chance node one ply shallower. */
  function MoveNodes(b: Board, m: int, depth: nat, pick: Sampler): nat
    requires SamplerOk(pick) && depth >= 1
    decreases depth, 0
  {
    Nodes(Slide(b, m), depth - 1, false, pick)
  }

  function ChanceNodes(b: Board, depth: nat, pick: Sampler): nat
    requires SamplerOk(pick) && depth >= 1
    decreases depth, 2
  {
    var cells := EmptyCells(b);
    if cells == [] then 0
    else
      SelectedSpec(b, depth, pick);
      CellsNodes(b, Selected(cells, depth, pick), depth, pick)
  }

  /** Calls made for the given cells, a 2 and a 4 in each. */
  function CellsNodes(b: Board, cs: seq<Cell>, depth: nat, pick: Sampler): nat
    requires SamplerOk(pick) && depth >= 1
    requires forall c :: c in cs ==> InBoard(b, c)
    decreases depth, 1, |cs|
  {
    if cs == [] then 0
    else
      var c := cs[|cs| - 1];
      CellsNodes(b, cs[..|cs| - 1], depth, pick) + CellNodes(b, c, depth, pick)
  }

  /** Calls made for one cell: a 2 and a 4. */
  function CellNodes(b: Board, c: Cell, depth: nat, pick: Sampler): nat
    requires SamplerOk(pick) && depth >= 1 && InBoard(b, c)
    decreases depth, 0
  {
    Nodes(Place(b, c, 2), depth - 1, true, pick) + Nodes(Place(b, c, 4), depth - 1, true, pick)
  }

  /** Size of a full tree of the given depth and branching factor. */
  function TreeSize(branching: nat, depth: nat): nat {
    if depth == 0 then 1 else 1 + branching * TreeSize(branching, depth - 1)
  }

  /** The branching factor bound: max(4, 2·N²). */
  function Branching(n: nat): nat {
    var cells := n * n;
    if 2 * cells >= 4 then 2 * cells else 4
  }

  lemma MulMono(x: nat, y: nat, z: nat)
    requires x <= y
    ensures x * z <= y * z
  {
  }

  lemma MulStep(m: nat, t: nat)
    requires m >= 1
    ensures (m - 1) * t + t == m * t
    ensures 2 * (m - 1) * t + 2 * t == 2 * m * t
  {
  }

  /** A call to _expectimax on an N×N board with d plies to go makes at most
      TreeSize(max(4, 2·N²), d) calls: a decision node has at most 4
      children, a chance node at most 2 per empty cell. */
  lemma {:induction false} NodesBound(b: Board, depth: nat, isMax: bool, pick: Sampler)
    requires SamplerOk(pick)
    ensures 1 <= Nodes(b, depth, isMax, pick) <= TreeSize(Branching(|b|), depth)
    decreases depth, 3
  {
    if depth > 0 {
      ExpandNodesBound(b, depth, isMax, pick);
    }
  }

  lemma {:induction false} ExpandNodesBound(b: Board, depth: nat, isMax: bool, pick: Sampler)
    requires SamplerOk(pick) && depth >= 1
    ensures ExpandNodes(b, depth, isMax, pick) <= Branching(|b|) * TreeSize(Branching(|b|), depth - 1)
    decreases depth, 2
  {
    if !GameOver(b) {
      if isMax {
        MaxNodesBound(b, depth, pick);
      } else {
        ChanceNodesBound(b, depth, pick);
      }
    }
  }

  /** At most four moves, each a subtree one ply shallower. */
  lemma {:induction false} MaxNodesBound(b: Board, depth: nat, pick: Sampler)
    requires SamplerOk(pick) && depth >= 1
    ensures MaxNodes(b, depth, pick) <= Branching(|b|) * TreeSize(Branching(|b|), depth - 1)
    decreases depth, 1
  {
    var moves := LegalMoves(b);
    var t := TreeSize(Branching(|b|), depth - 1);
    LegalMovesAtMostFour(b);
    MovesNodesBound(b, moves, depth, pick);
    MulMono(|moves|, Branching(|b|), t);
  }

  /** At most N² distinct cells, two subtrees one ply shallower each. */
  lemma {:induction false} ChanceNodesBound(b: Board, depth: nat, pick: Sampler)
    requires SamplerOk(pick) && depth >= 1
    ensures ChanceNodes(b, depth, pick) <= Branching(|b|) * TreeSize(Branching(|b|), depth - 1)
    decreases depth, 1
  {
    var cells := EmptyCells(b);
    if cells != [] {
      var t := TreeSize(Branching(|b|), depth - 1);
      SelectedSpec(b, depth, pick);
      var s := Selected(cells, depth, pick);
      DistinctCellsBound(b, s);
      CellsNodesBound(b, s, depth, pick);
      MulMono(2 * |s|, Branching(|b|), t);
    }
  }

  lemma {:induction false} MovesNodesBound(b: Board, moves: seq<int>, depth: nat, pick: Sampler)
    requires SamplerOk(pick) && depth >= 1
    ensures MovesNodes(b, moves, depth, pick) <= |moves| * TreeSize(Branching(|b|), depth - 1)
    decreases depth, 0, |moves|
  {
    if moves != [] {
      var m := |moves|;
      var t := TreeSize(Branching(|b|), depth - 1);
      MovesNodesBound(b, moves[..m - 1], depth, pick);
      MoveNodesBound(b, moves[m - 1], depth, pick);
      MulStep(m, t);
    }
  }

  lemma {:induction false} CellsNodesBound(b: Board, cs: seq<Cell>, depth: nat, pick: Sampler)
    requires SamplerOk(pick) && depth >= 1
    requires forall c :: c in cs ==> InBoard(b, c)
    ensures CellsNodes(b, cs, depth, pick) <= 2 * |cs| * TreeSize(Branching(|b|), depth - 1)
    decreases depth, 0, |cs|
  {
    if cs != [] {
      var m := |cs|;
      var c := cs[m - 1];
      var t := TreeSize(Branching(|b|), depth - 1);
      assert c in cs;
      CellsNodesBound(b, cs[..m - 1], depth, pick);
      CellNodesBound(b, c, depth, pick);
      MulStep(m, t);
    }
  }

  lemma {:induction false} MoveNodesBound(b: Board, m: int, depth: nat, pick: Sampler)
    requires SamplerOk(pick) && depth >= 1
    ensures MoveNodes(b, m, depth, pick) <= TreeSize(Branching(|b|), depth - 1)
    decreases depth, 0, 0
  {
    var child := Slide(b, m);
    assert MoveNodes(b, m, depth, pick) == Nodes(child, depth - 1, false, pick);
    NodesBound(child, depth - 1, false, pick);
  }

  lemma {:induction false} CellNodesBound(b: Board, c: Cell, depth: nat, pick: Sampler)
    requires SamplerOk(pick) && depth >= 1 && InBoard(b, c)
    ensures CellNodes(b, c, depth, pick) <= 2 * TreeSize(Branching(|b|), depth - 1)
    decreases depth, 0, 0
  {
    var two := Place(b, c, 2);
    var four := Place(b, c, 4);
    PlacedBound(two, b, depth - 1, pick);
    PlacedBound(four, b, depth - 1, pick);
  }

  /** A board of the same size as b stays within b's tree-size bound. */
  lemma PlacedBound(p: Board, b: Board, depth: nat, pick: Sampler)
    requires SamplerOk(pick) && |p| == |b|
    ensures Nodes(p, depth, true, pick) <= TreeSize(Branching(|b|), depth)
    decreases depth, 4
  {
    NodesBound(p, depth, true, pick);
  }

  lemma LegalMovesAtMostFour(b: Board)
    ensures |LegalMoves(b)| <= 4
  {
    FlaggedLength(Changes(b), 4);
  }

  lemma {:induction false} FlaggedLength(flags: seq<bool>, k: nat)
    requires k <= |flags|
    ensures |Flagged(flags, k)| <= k
  {
    if k > 0 {
      FlaggedLength(flags, k - 1);
    }
  }

  /** Distinct cells of an N×N board number at most N². */
  lemma DistinctCellsBound(b: Board, cs: seq<Cell>)
    requires Distinct(cs) && forall c :: c in cs ==> InBoard(b, c)
    ensures |cs| <= |b| * |b|
  {
    var n := |b|;
    var all := set i, j | 0 <= i < n && 0 <= j < n :: Cell(i, j);
    var mine := set k | 0 <= k < |cs| :: cs[k];
    forall k | 0 <= k < |cs|
      ensures cs[k] in all
    {
      assert cs[k] in cs;
      assert cs[k] == Cell(cs[k].row, cs[k].col);
    }
    assert mine <= all;
    CellSetSize(n);
    DistinctSetSize(cs);
    assert |mine| <= |all| by {
      SubsetCard(mine, all);
    }
  }

  lemma SubsetCard<T>(x: set<T>, y: set<T>)
    requires x <= y
    ensures |x| <= |y|
  {
    assert y == x + (y - x);
  }

  lemma {:induction false} DistinctSetSize(cs: seq<Cell>)
    requires Distinct(cs)
    ensures |set k | 0 <= k < |cs| :: cs[k]| == |cs|
  {
    if cs != [] {
      var n := |cs|;
      var x := cs[n - 1];
      var front := cs[..n - 1];
      DistinctSetSize(front);
      var t := set k | 0 <= k < |front| :: front[k];
      assert |t| == n - 1;
      SnocSet(cs, front);
      forall c | c in t
        ensures c != x
      {
        var k :| 0 <= k < n - 1 && front[k] == c;
        assert cs[k] == c;
      }
      DisjointUnionCard(t, {x});
      assert (set k | 0 <= k < |cs| :: cs[k]) == t + {x};
    }
  }

  /** The cells of a list are those of its front and its last cell. */
  lemma SnocSet(cs: seq<Cell>, front: seq<Cell>)
    requires cs != [] && front == cs[..|cs| - 1]
    ensures (set k | 0 <= k < |cs| :: cs[k]) == (set k | 0 <= k < |front| :: front[k]) + {cs[|cs| - 1]}
  {
    var n := |cs|;
    var x := cs[n - 1];
    var s := set k | 0 <= k < n :: cs[k];
    var t := set k | 0 <= k < |front| :: front[k];
    forall c | c in s
      ensures c in t + {x}
    {
      var k :| 0 <= k < n && cs[k] == c;
      if k < n - 1 {
        assert front[k] == c;
      }
    }
    forall c | c in t + {x}
      ensures c in s
    {
      if c != x {
        var k :| 0 <= k < n - 1 && front[k] == c;
        assert cs[k] == c;
      }
    }
  }

  lemma DisjointUnionCard<T>(x: set<T>, y: set<T>)
    requires x !! y
    ensures |x + y| == |x| + |y|
  {
  }

  /** The cells of an N×N board number N². */
  lemma CellSetSize(n: nat)
    ensures |set i, j | 0 <= i < n && 0 <= j < n :: Cell(i, j)| == n * n
  {
    RowsOfCells(n, n);
  }

  lemma {:induction false} RowsOfCells(n: nat, rows: nat)
    ensures |set i, j | 0 <= i < rows && 0 <= j < n :: Cell(i, j)| == rows * n
  {
    if rows > 0 {
      var r := rows - 1;
      RowsOfCells(n, r);
      RowOfCells(r, n);
      CellRowsSplit(n, r);
      DisjointUnionCard(set i, j | 0 <= i < r && 0 <= j < n :: Cell(i, j), set j | 0 <= j < n :: Cell(r, j));
      MulStep(rows, n);
    }
  }

  /** The cells of rows 0..r are those of rows 0..r-1 and those of row r. */
  lemma CellRowsSplit(n: nat, r: nat)
    ensures (set i, j | 0 <= i < r + 1 && 0 <= j < n :: Cell(i, j)) ==
            (set i, j | 0 <= i < r && 0 <= j < n :: Cell(i, j)) + (set j | 0 <= j < n :: Cell(r, j))
  {
    var all := set i, j | 0 <= i < r + 1 && 0 <= j < n :: Cell(i, j);
    var before := set i, j | 0 <= i < r && 0 <= j < n :: Cell(i, j);
    var last := set j | 0 <= j < n :: Cell(r, j);
    forall c | c in all
      ensures c in before + last
    {
      if c.row < r {
        assert c == Cell(c.row, c.col);
      } else {
        assert c == Cell(r, c.col);
      }
    }
  }

  lemma {:induction false} RowOfCells(i: nat, n: nat)
    ensures |set j | 0 <= j < n :: Cell(i, j)| == n
  {
    if n > 0 {
      var x := Cell(i, n - 1);
      var front := set j | 0 <= j < n - 1 :: Cell(i, j);
      RowOfCells(i, n - 1);
      assert (set j | 0 <= j < n :: Cell(i, j)) == front + {x};
      DisjointUnionCard(front, {x});
    }
  }
}
