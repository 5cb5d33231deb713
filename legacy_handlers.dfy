/**
 * handlers.py: the older variant of the game handlers, which the running bot
 * does not register. Its state machine differs from handlers/game_handlers.py:
 * a second player joins without moving, a finished game ignores presses, no
 * ban list is consulted and no statistics are kept. Its stores are those of
 * game_state.py and the per-user `chosen_theme` of `context.user_data`.
 */
module LegacyHandlers {
  import opened Wrappers
  import opened Board
  import opened Config
  import opened GameState
  import opened GameLogic
  import opened GameHandlers

  class LegacyBot {
    var games: map<int, Game>
    /** `context.user_data['chosen_theme']`, per user. */
    var userThemes: map<int, string>
    /** The jobs on which the handlers called `schedule_removal()`, oldest first. */
    var cancelledJobs: seq<Job>

    ghost predicate Valid()
      reads this
    {
      GamesValid(games)
    }

    constructor ()
      ensures Valid()
      ensures games == map[] && userThemes == map[] && cancelledJobs == []
    {
      games, userThemes, cancelledJobs := map[], map[], [];
    }
  }

  /** The theme a user's new game gets: their chosen key, else the default, through the theme table. */
  function UserTheme(userThemes: map<int, string>, userId: int): (t: Theme)
    ensures userId in userThemes && userThemes[userId] in Themes ==> t == Themes[userThemes[userId]]
    ensures userId !in userThemes || userThemes[userId] !in Themes ==> t == Themes[DefaultThemeKey]
  {
    ChosenTheme(if userId in userThemes then Some(userThemes[userId]) else None)
  }

  /**
   * `new_game`: without a message, or while the chat's game is running,
   * nothing changes. Otherwise the old record's timeout job is cancelled and
   * the record replaced by a fresh game; when the start message cannot be
   * sent (`sentMessageId == None`) the new record is deleted again. The theme
   * is the one chosen by `themeUserId`, the user whose `context.user_data` the
   * call sees: the sender of the command, or the presser of a button.
   */
  method NewGame(st: LegacyBot, chatId: int, hasMessage: bool, userId: int, username: Option<string>,
                 themeUserId: int, first: Symbol, sentMessageId: Option<int>, jobId: int)
    requires st.Valid()
    modifies st
    ensures st.Valid()
    ensures st.userThemes == old(st.userThemes)
    ensures !hasMessage || ActiveGame(old(st.games), chatId) ==>
              st.games == old(st.games) && st.cancelledJobs == old(st.cancelledJobs)
    ensures hasMessage && !ActiveGame(old(st.games), chatId) ==>
              && st.cancelledJobs == old(st.cancelledJobs) +
                   (if chatId in old(st.games) && old(st.games)[chatId].timeoutJob.Some?
                    then [old(st.games)[chatId].timeoutJob.value] else [])
              && (sentMessageId.None? ==> st.games == old(st.games) - {chatId})
              && (sentMessageId.Some? ==>
                    st.games == old(st.games)[chatId := FreshGame(chatId, userId, DisplayName(userId, username), first,
                                                                 UserTheme(old(st.userThemes), themeUserId),
                                                                 sentMessageId.value, jobId)])
  {
    if !hasMessage {
      return;
    }
    if ActiveGame(st.games, chatId) {
      return;
    }
    if chatId in st.games && st.games[chatId].timeoutJob.Some? {
      st.cancelledJobs := st.cancelledJobs + [st.games[chatId].timeoutJob.value];
    }
    if sentMessageId.None? {
      // The record stored before the failed send is deleted again.
      st.games := st.games - {chatId};
      return;
    }
    var created := FreshGame(chatId, userId, DisplayName(userId, username), first,
                             UserTheme(st.userThemes, themeUserId), sentMessageId.value, jobId);
    GamesValidUpdate(st.games, chatId, created);
    st.games := st.games[chatId := created];
  }

  /** The effect of a cell press on one record in this variant. */
  datatype Press = Unchanged | Joined(game: Game) | Moved(game: Game, outcome: Outcome)

  /**
   * The digit branch of `button_click`. A finished game ignores the press.
   * While the seat of the symbol not to move is empty, anyone but the holder
   * of the current seat takes it (and the timeout job is dropped) without
   * moving, and the holder must wait. Otherwise only the holder of the
   * current seat may move, onto an empty cell; an outcome ends the game,
   * otherwise the turn passes. Any digit string reaches this branch: a join
   * does not look at the cell, while a move to a cell past the board raises
   * `IndexError` before anything changes.
   */
  function PressCell(g: Game, userId: int, name: string, cell: nat): (p: Press)
  {
    var current := g.currentPlayer;
    var second := Other(current);
    if g.gameOver then Unchanged
    else if !Truthy(g.players.Get(second)) then
      if Human(userId) != g.players.Get(current) then
        Joined(g.(players := g.players.Set(second, Human(userId)),
                  userSymbols := g.userSymbols[userId := second],
                  usernames := g.usernames[Human(userId) := name],
                  timeoutJob := None))
      else Unchanged
    else if Human(userId) != g.players.Get(current) then Unchanged
    else if cell >= 9 || g.board[cell].Mark? then Unchanged
    else
      var board := g.board[cell := Mark(current)];
      var outcome := CheckWinner(board);
      if outcome != Ongoing then Moved(g.(board := board, gameOver := true), outcome)
      else Moved(g.(board := board, currentPlayer := second), outcome)
  }

  /**
   * Exactly which presses change the record. A finished game ignores every
   * press. While the second seat is empty, everyone but the holder of the
   * current seat joins. Once it is taken, the holder's press on an empty cell
   * of the board is a move.
   */
  lemma PressEffectExactly(g: Game, userId: int, name: string, cell: nat)
    ensures g.gameOver ==> PressCell(g, userId, name, cell) == Unchanged
    ensures PressCell(g, userId, name, cell).Joined? <==>
      !g.gameOver && !Truthy(g.players.Get(Other(g.currentPlayer))) && Human(userId) != g.players.Get(g.currentPlayer)
    ensures PressCell(g, userId, name, cell).Moved? <==>
      && !g.gameOver && Truthy(g.players.Get(Other(g.currentPlayer)))
      && Human(userId) == g.players.Get(g.currentPlayer) && cell < 9 && g.board[cell].Empty?
  {
  }

  /**
   * Joining takes the empty seat of the symbol not to move and drops the
   * timeout job, but marks no cell and does not pass the turn; the holder of
   * the current seat cannot join their own game.
   */
  lemma JoinPlacesNoMark(g: Game, userId: int, name: string, cell: nat)
    requires !g.gameOver && !Truthy(g.players.Get(Other(g.currentPlayer)))
    ensures Human(userId) == g.players.Get(g.currentPlayer) <==> PressCell(g, userId, name, cell) == Unchanged
    ensures PressCell(g, userId, name, cell).Joined? ==>
      var n := PressCell(g, userId, name, cell).game;
      && n.board == g.board && n.currentPlayer == g.currentPlayer && !n.gameOver
      && n.players.Get(Other(g.currentPlayer)) == Human(userId)
      && n.players.Get(g.currentPlayer) == g.players.Get(g.currentPlayer)
      && n.timeoutJob == None
  {
  }

  /** Once both seats are taken, a press out of turn or on a marked cell changes nothing. */
  lemma OutOfTurnOrOccupiedIgnored(g: Game, userId: int, name: string, cell: nat)
    requires cell < 9 && Truthy(g.players.Get(Other(g.currentPlayer)))
    requires Human(userId) != g.players.Get(g.currentPlayer) || g.board[cell].Mark?
    ensures PressCell(g, userId, name, cell) == Unchanged
  {
  }

  /**
   * A move marks exactly the pressed cell, which was empty, with the current
   * symbol; an outcome ends the game, otherwise the turn passes. Seats do not
   * change.
   */
  lemma {:induction false} MoveMarksOneCell(g: Game, userId: int, name: string, cell: nat)
    requires PressCell(g, userId, name, cell).Moved?
    ensures cell < 9
    ensures var Moved(n, outcome) := PressCell(g, userId, name, cell);
      && !g.gameOver && Human(userId) == g.players.Get(g.currentPlayer) && g.board[cell].Empty?
      && n.board == g.board[cell := Mark(g.currentPlayer)]
      && EmptyCount(n.board) == EmptyCount(g.board) - 1
      && outcome == CheckWinner(n.board)
      && (outcome != Ongoing ==> n.gameOver && n.currentPlayer == g.currentPlayer)
      && (outcome == Ongoing ==> !n.gameOver && n.currentPlayer == Other(g.currentPlayer))
      && n.players == g.players
  {
    MarkingTakesOneEmptyCell(g.board, cell, g.currentPlayer);
  }

  /** A press keeps the record invariants. */
  lemma PressKeepsGameValid(g: Game, userId: int, name: string, cell: nat)
    requires GameValid(g) && !PressCell(g, userId, name, cell).Unchanged?
    ensures GameValid(PressCell(g, userId, name, cell).game)
  {
    var p := PressCell(g, userId, name, cell);
    var n := p.game;
    if p.Joined? {
      assert n.players == g.players.Set(Other(g.currentPlayer), Human(userId));
      assert n.usernames == g.usernames[Human(userId) := name] && n.board == g.board;
      forall s: Symbol | n.players.Get(s) != Vacant ensures n.players.Get(s) in n.usernames {
        if s == g.currentPlayer {
          assert n.players.Get(s) == g.players.Get(s);
        }
      }
    } else {
      MoveMarksOneCell(g, userId, name, cell);
      assert n.players == g.players && n.usernames == g.usernames;
    }
  }

  /** `message_id and game_message_id and message_id != game_message_id` */
  predicate LegacyStale(messageId: int, g: Game) {
    && messageId != 0
    && g.messageId.Some? && g.messageId.value != 0
    && messageId != g.messageId.value
  }

  /**
   * `button_click`. A chat without a game, a press on an old message and
   * "noop" change nothing. "new_game" starts a game only when the current one
   * is over, on behalf of the author of the pressed message (`initiatorId`,
   * `initiatorName`) but with the theme of the presser, whose `user_data` the
   * call passes on; the new record needs the start message to be sent. A
   * cell press applies `PressCell`; a join cancels the dropped timeout job.
   * `messageId` is the id of the message whose keyboard was pressed.
   */
  method ButtonClick(st: LegacyBot, chatId: int, userId: int, username: Option<string>, messageId: int,
                     data: CallbackData, initiatorId: int, initiatorName: Option<string>, first: Symbol,
                     sentMessageId: Option<int>, jobId: int)
    requires st.Valid()
    modifies st
    ensures st.Valid()
    ensures st.userThemes == old(st.userThemes)
    ensures chatId !in old(st.games) || LegacyStale(messageId, old(st.games)[chatId]) || data == NoopData ==>
              st.games == old(st.games) && st.cancelledJobs == old(st.cancelledJobs)
    ensures chatId in old(st.games) && !LegacyStale(messageId, old(st.games)[chatId]) && data == NewGameData ==>
              && (!old(st.games)[chatId].gameOver ==> st.games == old(st.games) && st.cancelledJobs == old(st.cancelledJobs))
              && (old(st.games)[chatId].gameOver ==>
                    st.cancelledJobs == old(st.cancelledJobs) +
                      (if old(st.games)[chatId].timeoutJob.Some? then [old(st.games)[chatId].timeoutJob.value] else []))
              && (old(st.games)[chatId].gameOver && sentMessageId.Some? ==>
                    st.games == old(st.games)[chatId := FreshGame(chatId, initiatorId, DisplayName(initiatorId, initiatorName),
                                                                 first, UserTheme(old(st.userThemes), userId),
                                                                 sentMessageId.value, jobId)])
              && (old(st.games)[chatId].gameOver && sentMessageId.None? ==> st.games == old(st.games) - {chatId})
    ensures chatId in old(st.games) && !LegacyStale(messageId, old(st.games)[chatId]) && data.CellData? ==>
              var g := old(st.games)[chatId];
              var p := PressCell(g, userId, DisplayName(userId, username), data.cell);
              && (p.Unchanged? ==> st.games == old(st.games) && st.cancelledJobs == old(st.cancelledJobs))
              && (!p.Unchanged? ==> st.games == old(st.games)[chatId := p.game])
              && (p.Joined? ==> st.cancelledJobs == old(st.cancelledJobs) + (if g.timeoutJob.Some? then [g.timeoutJob.value] else []))
              && (p.Moved? ==> st.cancelledJobs == old(st.cancelledJobs))
  {
    if chatId !in st.games {
      return;
    }
    var g := st.games[chatId];
    if LegacyStale(messageId, g) {
      return;
    }
    match data
    case NoopData =>
      return;
    case NewGameData =>
      if !g.gameOver {
        return;
      }
      NewGame(st, chatId, true, initiatorId, initiatorName, userId, first, sentMessageId, jobId);
    case CellData(cell) =>
      var p := PressCell(g, userId, DisplayName(userId, username), cell);
      if p.Unchanged? {
        return;
      }
      PressKeepsGameValid(g, userId, DisplayName(userId, username), cell);
      if p.Joined? && g.timeoutJob.Some? {
        st.cancelledJobs := st.cancelledJobs + [g.timeoutJob.value];
      }
      GamesValidUpdate(st.games, chatId, p.game);
      st.games := st.games[chatId := p.game];
  }

  /**
   * `game_timeout`: a running game whose seat for the symbol not to move is
   * still empty is ended. Whenever the chat has a record, its timeout job
   * reference is cleared; the board, seats and turn are untouched.
   */
  method GameTimeout(st: LegacyBot, job: Job)
    requires st.Valid()
    modifies st
    ensures st.Valid()
    ensures st.userThemes == old(st.userThemes) && st.cancelledJobs == old(st.cancelledJobs)
    ensures job.chatId !in old(st.games) ==> st.games == old(st.games)
    ensures job.chatId in old(st.games) ==>
              var g := old(st.games)[job.chatId];
              st.games == old(st.games)[job.chatId := g.(gameOver := g.gameOver || TimesOut(g), timeoutJob := None)]
  {
    var chatId := job.chatId;
    if chatId !in st.games {
      return;
    }
    var g := st.games[chatId];
    if TimesOut(g) {
      st.games := st.games[chatId := g.(gameOver := true, timeoutJob := None)];
    } else if g.timeoutJob.Some? {
      st.games := st.games[chatId := g.(timeoutJob := None)];
    }
  }

  /** Whether `userId` holds a seat of the game. */
  predicate Seated(g: Game, userId: int) {
    g.players.Get(X) == Human(userId) || g.players.Get(O) == Human(userId)
  }

  /**
   * `select_theme_ingame_callback`: a seated user choosing a known theme
   * changes the game's emojis and their own default theme; anything else
   * changes nothing. A finished game can still be re-themed.
   */
  method SelectThemeIngame(st: LegacyBot, chatId: int, userId: int, themeKey: string)
    requires st.Valid()
    modifies st
    ensures st.Valid()
    ensures st.cancelledJobs == old(st.cancelledJobs)
    ensures chatId in old(st.games) && Seated(old(st.games)[chatId], userId) && themeKey in Themes ==>
              && st.games == old(st.games)[chatId := old(st.games)[chatId].(themeEmojis := Themes[themeKey])]
              && st.userThemes == old(st.userThemes)[userId := themeKey]
    ensures !(chatId in old(st.games) && Seated(old(st.games)[chatId], userId) && themeKey in Themes) ==>
              st.games == old(st.games) && st.userThemes == old(st.userThemes)
  {
    if chatId !in st.games {
      return;
    }
    var g := st.games[chatId];
    if !Seated(g, userId) || themeKey !in Themes {
      return;
    }
    var themed := g.(themeEmojis := Themes[themeKey]);
    GamesValidUpdate(st.games, chatId, themed);
    st.games := st.games[chatId := themed];
    st.userThemes := st.userThemes[userId := themeKey];
  }
}
