/**
 * game_logic.py: the win detector `check_winner`, the emoji lookup
 * `get_symbol_emoji` and the keyboard builder `get_keyboard`.
 */
module GameLogic {
  import opened Wrappers
  import opened Board
  import opened Config
  import opened GameState
  import Text

  /**
   * What `check_winner` returns: `(None, None)`, `(symbol, combo)` or
   * `("Ничья", None)`.
   */
  datatype Outcome = Ongoing | Won(symbol: Symbol, line: seq<int>) | Draw

  /** The eight winning lines in the order they are checked: rows, columns, diagonals. */
  const Lines: seq<seq<int>> := [
    [0, 1, 2], [3, 4, 5], [6, 7, 8],
    [0, 3, 6], [1, 4, 7], [2, 5, 8],
    [0, 4, 8], [2, 4, 6]
  ]

  predicate IsLine(line: seq<int>) {
    |line| == 3 && 0 <= line[0] < 9 && 0 <= line[1] < 9 && 0 <= line[2] < 9
  }

  lemma LinesAreLines()
    ensures |Lines| == 8
    ensures forall k :: 0 <= k < |Lines| ==> IsLine(Lines[k])
  {
  }

  /** `board[a] == board[b] == board[c] and not isinstance(board[a], int)` */
  predicate LineWins(b: Board, line: seq<int>)
    requires IsLine(line)
  {
    b[line[0]] == b[line[1]] == b[line[2]] && b[line[0]].Mark?
  }

  predicate WinAt(b: Board, k: int) {
    0 <= k < 8 && IsLine(Lines[k]) && LineWins(b, Lines[k])
  }

  /** The `for combo in win_combinations` scan from position `k`: the first winning line, if any. */
  function FirstWinningLine(b: Board, k: nat): (r: Option<nat>)
    requires k <= 8
    ensures r.Some? ==> k <= r.value < 8 && WinAt(b, r.value)
    ensures r.Some? ==> forall j :: k <= j < r.value ==> !WinAt(b, j)
    ensures r.None? ==> forall j :: k <= j < 8 ==> !WinAt(b, j)
    decreases 8 - k
  {
    if k == 8 then None
    else if WinAt(b, k) then Some(k)
    else FirstWinningLine(b, k + 1)
  }

  /**
   * `check_winner`: the first winning line in the fixed order, else a draw when
   * no cell is empty, else no outcome. Lines are checked before the draw, so a
   * full board holding a line reports its winner.
   */
  function CheckWinner(b: Board): (r: Outcome)
    ensures r.Won? <==> exists k :: WinAt(b, k)
    ensures r.Won? ==> exists k :: WinAt(b, k) && r.line == Lines[k] && forall j :: 0 <= j < k ==> !WinAt(b, j)
    ensures r.Won? ==> IsLine(r.line) && forall t :: 0 <= t < 3 ==> b[r.line[t]] == Mark(r.symbol)
    ensures r == Draw <==> (forall k :: !WinAt(b, k)) && Full(b)
    ensures r == Ongoing <==> (forall k :: !WinAt(b, k)) && !Full(b)
  {
    LinesAreLines();
    match FirstWinningLine(b, 0)
    case Some(k) => Won(b[Lines[k][0]].symbol, Lines[k])
    case None => if Full(b) then Draw else Ongoing
  }
  /**
   * On a board nobody has won yet, marking one empty cell can complete a line
   * only for the symbol just placed.
   */
  lemma MoveWinsOnlyForMover(b: Board, cell: nat, s: Symbol)
    requires cell < 9 && b[cell].Empty? && forall k :: !WinAt(b, k)
    ensures var r := CheckWinner(b[cell := Mark(s)]); r.Won? ==> r.symbol == s
  {
    var n: Board := b[cell := Mark(s)];
    var r := CheckWinner(n);
    if r.Won? {
      var k :| WinAt(n, k) && r.line == Lines[k];
      assert !WinAt(b, k);
      assert cell == r.line[0] || cell == r.line[1] || cell == r.line[2];
    }
  }


  /** Lines are checked before the draw: a full board that holds a line is a win, not a draw. */
  lemma CheckWinnerWonOnFullBoard(b: Board, k: int)
    requires Full(b) && WinAt(b, k)
    ensures CheckWinner(b).Won? && CheckWinner(b) != Draw
  {
  }

  /** The argument of `get_symbol_emoji`: a string or an empty cell's int. */
  datatype SymbolArg = Named(s: string) | CellNumber(n: int)

  function SymbolText(s: Symbol): string {
    if s == X then "X" else "O"
  }

  function Lookup(theme: Theme, key: string, fallback: string): (r: string)
    ensures key in theme ==> r == theme[key]
    ensures key !in theme ==> r == fallback
  {
    if key in theme then theme[key] else fallback
  }

  /**
   * `get_symbol_emoji`: the theme's emoji for X, O, an empty cell or a winning
   * X or O, each with its own fallback; any other string is returned as is.
   */
  function GetSymbolEmoji(arg: SymbolArg, theme: Theme): (r: string)
    ensures arg == Named("X") ==> r == Lookup(theme, "X", "❌")
    ensures arg == Named("O") ==> r == Lookup(theme, "O", "⭕")
    ensures arg.CellNumber? ==> r == Lookup(theme, EmptyCellSymbol, "⬜")
    ensures arg == Named("X_win") ==> r == Lookup(theme, "X_win", "⭐❌⭐")
    ensures arg == Named("O_win") ==> r == Lookup(theme, "O_win", "⭐⭕⭐")
    ensures arg.Named? && arg.s !in {"X", "O", "X_win", "O_win"} ==> r == arg.s
  {
    match arg
    case Named(s) =>
      if s == "X" then Lookup(theme, "X", "❌")
      else if s == "O" then Lookup(theme, "O", "⭕")
      else if s == "X_win" then Lookup(theme, "X_win", "⭐❌⭐")
      else if s == "O_win" then Lookup(theme, "O_win", "⭐⭕⭐")
      else s
    case CellNumber(_) => Lookup(theme, EmptyCellSymbol, "⬜")
  }

  /** Every built-in theme draws X, O and empty cells with its own entries. */
  lemma BuiltInThemesAreComplete(key: string)
    requires key in Themes
    ensures GetSymbolEmoji(Named("X"), Themes[key]) == Themes[key]["X"]
    ensures GetSymbolEmoji(Named("O"), Themes[key]) == Themes[key]["O"]
    ensures GetSymbolEmoji(CellNumber(1), Themes[key]) == Themes[key][EmptyCellSymbol]
  {
  }

  datatype Button = Button(text: string, callback: string)

  /** A cell button can be pressed exactly when the cell is empty and the game is not over. */
  predicate Clickable(g: Game, idx: nat)
    requires idx < 9
  {
    g.board[idx].Empty? && !g.gameOver
  }

  /** A pressable cell sends its index as text; every other cell sends "noop". */
  function CellCallback(g: Game, idx: nat): (data: string)
    requires idx < 9
    ensures data != "noop" <==> Clickable(g, idx)
    ensures Clickable(g, idx) ==> |data| == 1 && Text.IsDigit(data[0]) && data[0] as int - '0' as int == idx
  {
    if Clickable(g, idx) then [Text.DigitChar(idx)] else "noop"
  }

  /** A marked cell on a winning line of a finished game gets the theme's `_win` emoji. */
  predicate ShowsWin(g: Game, winning: Option<seq<int>>, idx: nat)
    requires idx < 9
  {
    g.board[idx].Mark? && g.gameOver && winning.Some? && idx in winning.value
  }

  /**
   * The label of a cell before the last-move framing: an empty cell shows the
   * theme's empty emoji; a marked cell shows its `_win` emoji when it lies on
   * the winning line of a finished game, and its plain emoji otherwise.
   */
  function PlainLabel(g: Game, winning: Option<seq<int>>, idx: nat): (text: string)
    requires idx < 9
    ensures g.board[idx].Empty? ==> text == GetSymbolEmoji(CellNumber(g.board[idx].n), g.themeEmojis)
    ensures ShowsWin(g, winning, idx) ==>
              text == GetSymbolEmoji(Named(SymbolText(g.board[idx].symbol) + "_win"), g.themeEmojis)
    ensures g.board[idx].Mark? && !ShowsWin(g, winning, idx) ==>
              text == GetSymbolEmoji(Named(SymbolText(g.board[idx].symbol)), g.themeEmojis)
  {
    if g.board[idx].Empty? then GetSymbolEmoji(CellNumber(g.board[idx].n), g.themeEmojis)
    else if ShowsWin(g, winning, idx) then GetSymbolEmoji(Named(SymbolText(g.board[idx].symbol) + "_win"), g.themeEmojis)
    else GetSymbolEmoji(Named(SymbolText(g.board[idx].symbol)), g.themeEmojis)
  }

  /** The label of a cell: the plain label, framed in green squares on the cell of the last move. */
  function CellText(g: Game, winning: Option<seq<int>>, idx: nat): (text: string)
    requires idx < 9
    ensures g.lastMove == Some(idx) ==> text == "🟩" + PlainLabel(g, winning, idx) + "🟩"
    ensures g.lastMove != Some(idx) ==> text == PlainLabel(g, winning, idx)
  {
    var plain := PlainLabel(g, winning, idx);
    if g.lastMove == Some(idx) then "🟩" + plain + "🟩" else plain
  }

  /**
   * With a built-in theme, a marked cell that is not the last move shows its
   * symbol's winning emoji exactly when it lies on the winning line of a
   * finished game: the highlight picks out the winning cells and no others.
   */
  lemma WinEmojiExactlyOnWinningLine(g: Game, winning: Option<seq<int>>, idx: nat, key: string)
    requires idx < 9 && g.board[idx].Mark? && g.lastMove != Some(idx)
    requires key in Themes && g.themeEmojis == Themes[key]
    ensures (CellText(g, winning, idx) == GetSymbolEmoji(Named(SymbolText(g.board[idx].symbol) + "_win"), g.themeEmojis))
            <==> ShowsWin(g, winning, idx)
  {
    var sym := SymbolText(g.board[idx].symbol);
    assert sym + "_win" == (if sym == "X" then "X_win" else "O_win");
    assert key == "classic" || key == "animals" || key == "food";
  }

  /** The control row: "new game" once the game is over, "change theme" while it runs. */
  function ControlRow(gameOver: bool): (row: seq<Button>)
    ensures |row| == 1
    ensures row[0].callback == (if gameOver then "new_game" else "change_theme_prompt")
  {
    if gameOver then [Button("🔄 Новая игра", "new_game")]
    else [Button("🎨 Сменить тему", "change_theme_prompt")]
  }

  /** The button of cell `idx`: its label and its callback data. */
  function ButtonFor(g: Game, winning: Option<seq<int>>, idx: nat): (b: Button)
    requires idx < 9
    ensures b.text == CellText(g, winning, idx) && b.callback == CellCallback(g, idx)
  {
    Button(CellText(g, winning, idx), CellCallback(g, idx))
  }

  /** The body of the inner loop of `get_keyboard`: label and callback of cell `cellIndex`. */
  method CellButton(game: Game, winning: Option<seq<int>>, cellIndex: nat) returns (button: Button)
    requires cellIndex < 9
    ensures button == ButtonFor(game, winning, cellIndex)
  {
    var cell := game.board[cellIndex];
    var cellText := "";
    var callbackData := "noop";
    if cell.Empty? {
      cellText := GetSymbolEmoji(CellNumber(cell.n), game.themeEmojis);
      if !game.gameOver {
        callbackData := [Text.DigitChar(cellIndex)];
      }
    } else if game.gameOver && winning.Some? && cellIndex in winning.value {
      cellText := GetSymbolEmoji(Named(SymbolText(cell.symbol) + "_win"), game.themeEmojis);
    } else {
      cellText := GetSymbolEmoji(Named(SymbolText(cell.symbol)), game.themeEmojis);
    }
    if game.lastMove == Some(cellIndex) {
      cellText := "🟩" + cellText + "🟩";
    }
    button := Button(cellText, callbackData);
  }

  /** The inner loop of `get_keyboard`: the three buttons of the row starting at cell `i`. */
  method RowButtons(game: Game, winning: Option<seq<int>>, i: nat) returns (row: seq<Button>)
    requires i <= 6
    ensures |row| == 3 && forall c :: 0 <= c < 3 ==> row[c] == ButtonFor(game, winning, i + c)
  {
    row := [];
    for j := 0 to 3
      invariant |row| == j
      invariant forall c :: 0 <= c < j ==> row[c] == ButtonFor(game, winning, i + c)
    {
      var button := CellButton(game, winning, i + j);
      row := row + [button];
    }
  }

  /**
   * `get_keyboard`: nothing for a chat without a game; otherwise three rows of
   * three cell buttons, in board order, followed by the control row.
   */
  method GetKeyboard(games: map<int, Game>, chatId: int, winning: Option<seq<int>>)
    returns (keyboard: Option<seq<seq<Button>>>)
    ensures keyboard.None? <==> chatId !in games
    ensures keyboard.Some? ==> |keyboard.value| == 4 && keyboard.value[3] == ControlRow(games[chatId].gameOver)
    ensures keyboard.Some? ==> forall r :: 0 <= r < 3 ==> |keyboard.value[r]| == 3
    ensures keyboard.Some? ==> forall r, c :: 0 <= r < 3 && 0 <= c < 3 ==>
              keyboard.value[r][c] == ButtonFor(games[chatId], winning, 3 * r + c)
  {
    if chatId !in games {
      return None;
    }
    var game := games[chatId];
    var rows: seq<seq<Button>> := [];
    var i := 0;
    while i < 9
      invariant 0 <= i <= 9 && i % 3 == 0 && |rows| == i / 3
      invariant forall r :: 0 <= r < |rows| ==> |rows[r]| == 3
      invariant forall r, c :: 0 <= r < |rows| && 0 <= c < 3 ==> rows[r][c] == ButtonFor(game, winning, 3 * r + c)
    {
      var row := RowButtons(game, winning, i);
      rows := rows + [row];
      i := i + 3;
    }
    rows := rows + [ControlRow(game.gameOver)];
    return Some(rows);
  }
}
