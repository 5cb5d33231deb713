/**
 * handlers/ai_handlers.py: starting a game against the computer and the
 * computer's turn. Replies, message edits and the half-second pause before the
 * computer's move are left out; the id of the sent start message is a
 * parameter (`None` when sending failed after the record was stored).
 */
module AiHandlers {
  import opened Wrappers
  import opened Board
  import opened Config
  import opened GameState
  import opened GameLogic
  import opened GameAi
  import opened GameHandlers

  /** The display name stored for the computer's seat. */
  const AiName := "🤖 ИИ"

  /**
   * The record `play_ai` stores: the user plays X and moves first, the
   * computer holds O, the board is empty, no move is highlighted and no
   * timeout job exists. Such a game can never be timed out.
   */
  function AiGame(userId: int, name: string, theme: Theme, messageId: Option<int>): (g: Game)
    ensures g.board == Initial() && g.currentPlayer == X && !g.gameOver
    ensures g.players.Get(X) == Human(userId) && g.players.Get(O) == Ai
    ensures g.userSymbols == map[userId := X]
    ensures g.usernames == map[Human(userId) := name, Ai := AiName]
    ensures g.vsAi && g.aiSymbol == Some(O) && g.lastMove == None && g.timeoutJob == None
    ensures g.messageId == messageId && g.themeEmojis == theme
    ensures GameValid(g) && !TimesOut(g)
  {
    Game(Initial(), X, false, Seats(Human(userId), Ai), map[userId := X],
         map[Human(userId) := name, Ai := AiName], messageId, None, theme, true, Some(O), None)
  }

  /**
   * `play_ai`: a chat whose game is still running changes nothing; otherwise
   * the chat's record is replaced by a game against the computer. The old
   * record's timeout job is not cancelled and the ban list is not consulted.
   */
  method PlayAi(st: BotState, chatId: int, userId: int, username: Option<string>, chosenTheme: Option<string>,
                sentMessageId: Option<int>)
    requires st.Valid()
    modifies st
    ensures st.Valid()
    ensures st.bannedUsers == old(st.bannedUsers) && st.chatStats == old(st.chatStats)
    ensures st.cancelledJobs == old(st.cancelledJobs)
    ensures ActiveGame(old(st.games), chatId) ==> st.games == old(st.games)
    ensures !ActiveGame(old(st.games), chatId) ==>
              st.games == old(st.games)[chatId := AiGame(userId, DisplayName(userId, username),
                                                         ChosenTheme(chosenTheme), sentMessageId)]
  {
    if ActiveGame(st.games, chatId) {
      return;
    }
    // `del games[chat_id]` followed by the store: one overwrite of the key.
    var created := AiGame(userId, DisplayName(userId, username), ChosenTheme(chosenTheme), sentMessageId);
    GamesValidUpdate(st.games, chatId, created);
    st.games := st.games[chatId := created];
  }

  /**
   * The computer's turn on one record: no move on a decided board; otherwise
   * the cell `best_move` picks gets the computer's symbol and is highlighted,
   * and either the game ends or the turn passes to the human symbol.
   */
  function AiTurn(g: Game): (c: Click)
    requires g.aiSymbol.Some?
  {
    var ai := g.aiSymbol.value;
    match BestMove(g.board, ai, Other(ai))
    case None => Ignored
    case Some(m) => AiPlace(g, m, ai)
  }

  /**
   * The computer's mark on cell `m`, highlighted as the last move; an
   * outcome ends the game, otherwise the turn passes to the other symbol.
   */
  function AiPlace(g: Game, m: nat, ai: Symbol): (c: Click)
    requires m < 9
    ensures c.Played? && c.outcome == CheckWinner(c.game.board)
    ensures c.game.board == g.board[m := Mark(ai)] && c.game.lastMove == Some(m)
    ensures c.game.players == g.players && c.game.usernames == g.usernames && c.game.timeoutJob == g.timeoutJob
    ensures c.outcome != Ongoing ==> c.game.gameOver && c.game.currentPlayer == g.currentPlayer
    ensures c.outcome == Ongoing ==> c.game.gameOver == g.gameOver && c.game.currentPlayer == Other(ai)
  {
    var board := g.board[m := Mark(ai)];
    var moved := g.(board := board, lastMove := Some(m));
    var outcome := CheckWinner(board);
    if outcome != Ongoing then Played(moved.(gameOver := true), outcome)
    else Played(moved.(currentPlayer := Other(ai)), outcome)
  }

  /**
   * The computer moves exactly when the board is undecided, and then marks
   * exactly the empty cell `best_move` chose, records it as the last move,
   * and either ends the game keeping the current player or hands the turn to
   * the human symbol. Seats, names and the timeout job are untouched.
   */
  lemma {:induction false} AiTurnMarksChosenCell(g: Game)
    requires g.aiSymbol.Some?
    ensures AiTurn(g).Ignored? <==> Terminal(g.board)
    ensures AiTurn(g).Played? ==>
      var ai := g.aiSymbol.value;
      var m := BestMove(g.board, ai, Other(ai)).value;
      var Played(n, outcome) := AiTurn(g);
      && m < 9 && g.board[m].Empty?
      && n.board == g.board[m := Mark(ai)]
      && EmptyCount(n.board) == EmptyCount(g.board) - 1
      && n.lastMove == Some(m)
      && outcome == CheckWinner(n.board)
      && (outcome != Ongoing ==> n.gameOver && n.currentPlayer == g.currentPlayer)
      && (outcome == Ongoing ==> n.gameOver == g.gameOver && n.currentPlayer == Other(ai))
      && n.players == g.players && n.usernames == g.usernames && n.timeoutJob == g.timeoutJob
  {
    var ai := g.aiSymbol.value;
    var move := BestMove(g.board, ai, Other(ai));
    if move.Some? {
      MarkingTakesOneEmptyCell(g.board, move.value, ai);
    }
  }

  /**
   * The computer only moves on a board nobody has won, so a game it ends is a
   * draw or a win for the computer, never a win for the human.
   */
  lemma AiTurnWinsOnlyForAi(g: Game)
    requires g.aiSymbol.Some? && AiTurn(g).Played?
    ensures AiTurn(g).outcome.Won? ==> AiTurn(g).outcome.symbol == g.aiSymbol.value
  {
    var ai := g.aiSymbol.value;
    var m := BestMove(g.board, ai, Other(ai)).value;
    MoveWinsOnlyForMover(g.board, m, ai);
  }

  /** The computer's turn keeps the record invariants. */
  lemma AiTurnKeepsGameValid(g: Game)
    requires g.aiSymbol.Some? && GameValid(g) && AiTurn(g).Played?
    ensures GameValid(AiTurn(g).game)
  {
    var ai := g.aiSymbol.value;
    var m := BestMove(g.board, ai, Other(ai)).value;
    var n := AiTurn(g).game;
    assert n.board == g.board[m := Mark(ai)] && n.players == g.players && n.usernames == g.usernames;
    forall i | 0 <= i < 9 && n.board[i].Empty? ensures n.board[i].n == i + 1 {
      assert n.board[i] == g.board[i];
    }
  }

  /**
   * `ai_move`: the computer's turn applied to the chat's record and, when the
   * game ends, to the chat's statistics exactly as a finished two-player game
   * is counted. The caller must name a chat with a game against the computer
   * (the source raises `KeyError` otherwise).
   */
  method AiMove(st: BotState, chatId: int)
    requires st.Valid() && chatId in st.games && st.games[chatId].aiSymbol.Some?
    modifies st
    ensures st.Valid()
    ensures st.bannedUsers == old(st.bannedUsers) && st.cancelledJobs == old(st.cancelledJobs)
    ensures var c := AiTurn(old(st.games)[chatId]);
      && (c.Ignored? ==> st.games == old(st.games) && st.chatStats == old(st.chatStats))
      && (c.Played? ==>
            && st.games == old(st.games)[chatId := c.game]
            && st.chatStats == (if c.outcome == Ongoing then old(st.chatStats)
                                else old(st.chatStats)[chatId := RecordResult(StatsOf(old(st.chatStats), chatId),
                                                                              c.outcome, ResultName(c.game, c.outcome))]))
  {
    var g := st.games[chatId];
    var c := AiTurn(g);
    if c.Ignored? {
      return;
    }
    AiTurnKeepsGameValid(g);
    GamesValidUpdate(st.games, chatId, c.game);
    st.games := st.games[chatId := c.game];
    if c.outcome != Ongoing {
      RecordStats(st, chatId, c.outcome, ResultName(c.game, c.outcome));
    }
  }

  /**
   * `button_click` never calls `ai_move`: once the user has moved in a game
   * against the computer, the current seat is the computer's, and every later
   * press on a cell, by anyone, is ignored.
   */
  lemma AiGameStallsAfterFirstMove(userId: int, name: string, theme: Theme, messageId: Option<int>, cell: nat)
    requires cell < 9
    ensures var c := ClickCell(AiGame(userId, name, theme, messageId), userId, name, cell);
      && c.Played? && c.outcome == Ongoing && c.game.currentPlayer == O
      && forall other: int, otherName: string, next: nat :: next < 9 ==> ClickCell(c.game, other, otherName, next) == Ignored
  {
    var g := AiGame(userId, name, theme, messageId);
    var n: Board := g.board[cell := Mark(X)];
    forall k | 0 <= k < 8 ensures !WinAt(n, k) {
      LinesAreLines();
    }
    assert n[if cell == 0 then 1 else 0].Empty?;
  }
}
