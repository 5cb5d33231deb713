/**
 * game_ai.py: exhaustive minimax for the computer opponent. No pruning, no
 * depth discount; each child board is a copy with one more mark, so the
 * caller's board is never changed (boards are values here).
 */
module GameAi {
  import opened Wrappers
  import opened Board
  import opened GameLogic

  /** The dict `minimax` returns: a score and, except on a finished board, a cell index. */
  datatype Move = Move(score: int, index: Option<nat>)

  /** The game is decided on this board: `check_winner` returned a truthy winner. */
  predicate Terminal(b: Board) {
    CheckWinner(b) != Ongoing
  }

  /** Terminal scoring: the human's line -1, the computer's line +1, a draw 0. */
  function TerminalScore(b: Board, ai: Symbol, human: Symbol): (r: int)
    ensures CheckWinner(b).Won? && CheckWinner(b).symbol == human ==> r == -1
    ensures CheckWinner(b).Won? && CheckWinner(b).symbol == ai && ai != human ==> r == 1
    ensures !CheckWinner(b).Won? ==> r == 0
  {
    var w := CheckWinner(b);
    if w.Won? && w.symbol == human then -1
    else if w.Won? && w.symbol == ai then 1
    else 0
  }

  /** The symbol the side to move places. */
  function Mover(maximizing: bool, ai: Symbol, human: Symbol): Symbol {
    if maximizing then ai else human
  }

  /** The sentinel `best` starts from: -2 when maximizing, 2 when minimizing. */
  function Sentinel(maximizing: bool): Move {
    Move(if maximizing then -2 else 2, None)
  }

  /** A strict improvement, so that an equal later score never replaces an earlier index. */
  predicate Improves(maximizing: bool, score: int, best: int) {
    if maximizing then score > best else score < best
  }

  predicate HasEmptyFrom(b: Board, i: nat) {
    exists j :: i <= j < 9 && b[j].Empty?
  }

  /** A result the scan may start from or return: the sentinel, or a real score at an empty cell. */
  predicate Admissible(b: Board, maximizing: bool, m: Move) {
    m == Sentinel(maximizing) || (-1 <= m.score <= 1 && m.index.Some? && m.index.value < 9 && b[m.index.value].Empty?)
  }

  /** `minimax(board, is_maximizing, ai_symbol, human_symbol)` */
  function Minimax(b: Board, maximizing: bool, ai: Symbol, human: Symbol): (r: Move)
    ensures -1 <= r.score <= 1
    ensures r.index.None? <==> Terminal(b)
    ensures r.index.Some? ==> r.index.value < 9 && b[r.index.value].Empty?
    decreases EmptyCount(b), 1
  {
    if Terminal(b) then Move(TerminalScore(b, ai, human), None)
    else Scan(b, maximizing, ai, human, 0, Sentinel(maximizing))
  }

  /** The `for i, cell in enumerate(board)` loop from cell `i` on, folding into `best`. */
  function Scan(b: Board, maximizing: bool, ai: Symbol, human: Symbol, i: nat, best: Move): (r: Move)
    requires i <= 9 && Admissible(b, maximizing, best)
    ensures Admissible(b, maximizing, r)
    ensures HasEmptyFrom(b, i) ==> r != Sentinel(maximizing)
    ensures best != Sentinel(maximizing) ==> r != Sentinel(maximizing)
    decreases EmptyCount(b), 0, 10 - i
  {
    if i == 9 then best
    else Scan(b, maximizing, ai, human, i + 1, Step(b, maximizing, ai, human, i, best))
  }

  /**
   * One iteration of that loop: on an empty cell, score the copy with the
   * mover's mark and keep it only if it strictly improves on `best`.
   */
  function Step(b: Board, maximizing: bool, ai: Symbol, human: Symbol, i: nat, best: Move): (r: Move)
    requires i < 9 && Admissible(b, maximizing, best)
    ensures Admissible(b, maximizing, r)
    ensures b[i].Empty? ==> r != Sentinel(maximizing)
    ensures best != Sentinel(maximizing) ==> r != Sentinel(maximizing)
    decreases EmptyCount(b), 0, 9 - i
  {
    if b[i].Empty? then
      MarkingTakesOneEmptyCell(b, i, Mover(maximizing, ai, human));
      var sim := Minimax(b[i := Mark(Mover(maximizing, ai, human))], !maximizing, ai, human);
      if Improves(maximizing, sim.score, best.score) then Move(sim.score, Some(i)) else best
    else
      best
  }

  /** `best_move`: the index of the computer's chosen cell, or None on a decided board. */
  function BestMove(b: Board, ai: Symbol, human: Symbol): (r: Option<nat>)
    ensures r.None? <==> Terminal(b)
    ensures r.Some? ==> r.value < 9 && b[r.value].Empty?
  {
    Minimax(b, true, ai, human).index
  }

  /** The score `minimax` gives the child where the side to move marks empty cell `j`. */
  function ChildScore(b: Board, maximizing: bool, ai: Symbol, human: Symbol, j: nat): int
    requires j < 9
  {
    Minimax(b[j := Mark(Mover(maximizing, ai, human))], !maximizing, ai, human).score
  }

  /** At least as good as `s` for the side to move. */
  predicate AtLeast(maximizing: bool, s: int, t: int) {
    if maximizing then s >= t else s <= t
  }

  /** One step keeps `best` unless the child at `i` strictly improves on it, and then takes that child. */
  lemma StepKeepsOrImproves(b: Board, maximizing: bool, ai: Symbol, human: Symbol, i: nat, best: Move)
    requires i < 9 && Admissible(b, maximizing, best)
    ensures var r := Step(b, maximizing, ai, human, i, best);
      && AtLeast(maximizing, r.score, best.score)
      && (b[i].Empty? ==> AtLeast(maximizing, r.score, ChildScore(b, maximizing, ai, human, i)))
      && (r != best ==> b[i].Empty? && r == Move(ChildScore(b, maximizing, ai, human, i), Some(i))
                        && Improves(maximizing, r.score, best.score))
  {
  }

  /** The scan's result is at least as good as `best` and as every child from `i` on. */
  lemma {:induction false} ScanBound(b: Board, maximizing: bool, ai: Symbol, human: Symbol, i: nat, best: Move)
    requires i <= 9 && Admissible(b, maximizing, best)
    ensures AtLeast(maximizing, Scan(b, maximizing, ai, human, i, best).score, best.score)
    ensures forall j :: i <= j < 9 && b[j].Empty? ==>
              AtLeast(maximizing, Scan(b, maximizing, ai, human, i, best).score, ChildScore(b, maximizing, ai, human, j))
    decreases 9 - i
  {
    if i < 9 {
      var next := Step(b, maximizing, ai, human, i, best);
      var r := Scan(b, maximizing, ai, human, i + 1, next);
      assert Scan(b, maximizing, ai, human, i, best) == r;
      StepKeepsOrImproves(b, maximizing, ai, human, i, best);
      ScanBound(b, maximizing, ai, human, i + 1, next);
      forall j | i <= j < 9 && b[j].Empty?
        ensures AtLeast(maximizing, r.score, ChildScore(b, maximizing, ai, human, j))
      {
        if j == i {
          assert AtLeast(maximizing, next.score, ChildScore(b, maximizing, ai, human, i));
        }
      }
    }
  }

  /**
   * When the scan from `i` replaces `best`, its index is the lowest cell from
   * `i` on whose child attains the returned score, which strictly improves on
   * `best` and on every earlier child.
   */
  lemma {:induction false} ScanPicksFirstBest(b: Board, maximizing: bool, ai: Symbol, human: Symbol, i: nat, best: Move)
    requires i <= 9 && Admissible(b, maximizing, best)
    ensures var r := Scan(b, maximizing, ai, human, i, best);
      r != best ==>
        && r.index.Some? && i <= r.index.value < 9
        && ChildScore(b, maximizing, ai, human, r.index.value) == r.score
        && Improves(maximizing, r.score, best.score)
        && forall j :: i <= j < r.index.value && b[j].Empty? ==> Improves(maximizing, r.score, ChildScore(b, maximizing, ai, human, j))
    decreases 9 - i
  {
    if i < 9 {
      var next := Step(b, maximizing, ai, human, i, best);
      var r := Scan(b, maximizing, ai, human, i + 1, next);
      assert Scan(b, maximizing, ai, human, i, best) == r;
      StepKeepsOrImproves(b, maximizing, ai, human, i, best);
      if r != next {
        // The replacement happened after cell i: it also beats `next`, which is at least `best`.
        ScanPicksFirstBest(b, maximizing, ai, human, i + 1, next);
        var k := r.index.value;
        assert Improves(maximizing, r.score, next.score) && AtLeast(maximizing, next.score, best.score);
        forall j | i <= j < k && b[j].Empty?
          ensures Improves(maximizing, r.score, ChildScore(b, maximizing, ai, human, j))
        {
          if j == i {
            assert AtLeast(maximizing, next.score, ChildScore(b, maximizing, ai, human, i));
          }
        }
      }
    }
  }

  /**
   * On a decided board `minimax` returns no index and the terminal score:
   * +1 for the computer's line, -1 for the human's line, 0 for a draw.
   */
  lemma MinimaxScoresDecidedBoard(b: Board, maximizing: bool, ai: Symbol, human: Symbol)
    requires Terminal(b) && ai != human
    ensures Minimax(b, maximizing, ai, human).index == None
    ensures Minimax(b, maximizing, ai, human).score ==
      match CheckWinner(b)
      case Won(w, _) => if w == ai then 1 else -1
      case _ => 0
  {
  }

  /**
   * On an undecided board the score is the best child score for the side to
   * move (the maximum for the computer, the minimum for the human) and the
   * index is the lowest empty cell whose child attains it.
   */
  lemma MinimaxIsBestChild(b: Board, maximizing: bool, ai: Symbol, human: Symbol)
    requires !Terminal(b)
    ensures var r := Minimax(b, maximizing, ai, human);
      && r.index.Some? && b[r.index.value].Empty?
      && ChildScore(b, maximizing, ai, human, r.index.value) == r.score
      && (forall j :: 0 <= j < 9 && b[j].Empty? ==> AtLeast(maximizing, r.score, ChildScore(b, maximizing, ai, human, j)))
      && (forall j :: 0 <= j < r.index.value && b[j].Empty? ==> Improves(maximizing, r.score, ChildScore(b, maximizing, ai, human, j)))
  {
    ScanBound(b, maximizing, ai, human, 0, Sentinel(maximizing));
    ScanPicksFirstBest(b, maximizing, ai, human, 0, Sentinel(maximizing));
  }

  /**
   * If the computer can complete a line now, `best_move` scores +1. With no
   * depth discount the chosen cell may be an earlier cell that also forces a
   * win, not necessarily the immediate one.
   */
  lemma ImmediateWinScoresOne(b: Board, ai: Symbol, human: Symbol, i: nat)
    requires ai != human
    requires !Terminal(b) && i < 9 && b[i].Empty?
    requires CheckWinner(b[i := Mark(ai)]).Won? && CheckWinner(b[i := Mark(ai)]).symbol == ai
    ensures Minimax(b, true, ai, human).score == 1
    ensures BestMove(b, ai, human).Some?
    ensures ChildScore(b, true, ai, human, BestMove(b, ai, human).value) == 1
  {
    MinimaxIsBestChild(b, true, ai, human);
    assert ChildScore(b, true, ai, human, i) == 1;
  }
}
