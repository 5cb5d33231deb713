/**
 * The 3x3 board of game_logic.py and game_state.py. The source keeps a list of
 * nine values: the int `n` (1..9) on a cell nobody has played, `'X'` or `'O'`
 * on a played cell, and tells the two apart with `isinstance(cell, int)`.
 * Here that distinction is the tag of `Cell`.
 */
module Board {

  datatype Symbol = X | O

  datatype Cell = Empty(n: int) | Mark(symbol: Symbol)

  type Board = b: seq<Cell> | |b| == 9 witness Initial()

  /** `'O' if symbol == 'X' else 'X'` */
  function Other(s: Symbol): (t: Symbol)
    ensures t != s
  {
    if s == X then O else X
  }

  /** `list(range(1, 10))`: every cell empty and numbered by its position plus one. */
  function Initial(): (b: seq<Cell>)
    ensures |b| == 9
    ensures forall i :: 0 <= i < 9 ==> b[i] == Empty(i + 1)
  {
    seq(9, i => Empty(i + 1))
  }

  /** The cells keep their display numbers: an empty cell at `i` carries `i + 1`. */
  ghost predicate NumberedCells(b: Board) {
    forall i :: 0 <= i < 9 && b[i].Empty? ==> b[i].n == i + 1
  }

  predicate Full(b: Board) {
    forall i :: 0 <= i < 9 ==> b[i].Mark?
  }

  function EmptyCount(s: seq<Cell>): (k: nat)
    ensures k <= |s|
    ensures k == 0 <==> forall i :: 0 <= i < |s| ==> s[i].Mark?
  {
    if s == [] then 0 else (if s[0].Empty? then 1 else 0) + EmptyCount(s[1..])
  }

  /** Marking an empty cell lowers the number of empty cells by exactly one. */
  lemma {:induction false} MarkingTakesOneEmptyCell(s: seq<Cell>, i: nat, sym: Symbol)
    requires i < |s| && s[i].Empty?
    ensures EmptyCount(s[i := Mark(sym)]) == EmptyCount(s) - 1
  {
    if i > 0 {
      MarkingTakesOneEmptyCell(s[1..], i - 1, sym);
      assert s[i := Mark(sym)][1..] == s[1..][i - 1 := Mark(sym)];
    } else {
      assert s[i := Mark(sym)][1..] == s[1..];
    }
  }
}
