/**
 * handlers/game_handlers.py: starting a two-player game, the button callback
 * (join, move, win/draw detection, statistics) and the join timeout. Telegram
 * replies and edits are left out; `random.choice`, the sent message's id and
 * the job queue's handle are parameters.
 */
module GameHandlers {
  import opened Wrappers
  import opened Board
  import opened Config
  import opened GameState
  import opened GameLogic
  import Text

  /** `user.username or f"player_{user_id}"` (an absent or empty username falls back). */
  function DisplayName(userId: int, username: Option<string>): (name: string)
    ensures username.Some? && username.value != "" ==> name == username.value
    ensures username.None? || username.value == "" ==> name == "player_" + Text.IntToString(userId)
  {
    if username.Some? && username.value != "" then username.value else "player_" + Text.IntToString(userId)
  }

  /** `str(user_id) in banned_users or username in banned_users` */
  predicate IsBanned(banned: set<string>, userId: int, username: Option<string>) {
    Text.IntToString(userId) in banned || (username.Some? && username.value in banned)
  }

  /** A game that is still running blocks a new one: `chat_id in games and not game_over`. */
  predicate ActiveGame(games: map<int, Game>, chatId: int) {
    chatId in games && !games[chatId].gameOver
  }

  /**
   * The record `new_game` stores: all cells empty, the initiator on the
   * randomly drawn symbol, which moves first, the other seat empty, and a
   * timeout job for the started message.
   */
  function FreshGame(chatId: int, userId: int, name: string, first: Symbol, theme: Theme,
                     messageId: int, jobId: int): (g: Game)
    ensures g.board == Initial() && g.currentPlayer == first && !g.gameOver
    ensures g.players.Get(first) == Human(userId) && g.players.Get(Other(first)) == Vacant
    ensures g.timeoutJob == Some(Job(jobId, chatId, messageId, GameTimeoutSeconds))
    ensures GameValid(g)
  {
    Game(Initial(), first, false, Seats(Vacant, Vacant).Set(first, Human(userId)),
         map[userId := first], map[Human(userId) := name], Some(messageId),
         Some(Job(jobId, chatId, messageId, GameTimeoutSeconds)), theme, false, None, None)
  }

  /** `context.user_data.get('chosen_theme', DEFAULT_THEME_KEY)` resolved through the theme table. */
  function ChosenTheme(chosen: Option<string>): (t: Theme)
    ensures chosen.Some? && chosen.value in Themes ==> t == Themes[chosen.value]
    ensures chosen.None? || chosen.value !in Themes ==> t == Themes[DefaultThemeKey]
  {
    ThemeFor(if chosen.Some? then chosen.value else DefaultThemeKey)
  }

  /**
   * Callback data: "noop", a cell number (`int(data)` of a digit string) or
   * "new_game". The registered handler's pattern admits only the cells 0 to 8.
   */
  datatype CallbackData = NoopData | CellData(cell: nat) | NewGameData

  /** The effect of a press on cell `cell` on one game record. */
  datatype Click = Ignored | Played(game: Game, outcome: Outcome)

  /**
   * The move itself: the cell gets the current symbol; an outcome ends the
   * game with the same current player, otherwise the turn passes. Seats,
   * names, the timeout job and the highlighted move are untouched.
   */
  function PlayMove(g: Game, cell: nat): (c: Click)
    requires cell < 9
    ensures c.Played? && c.outcome == CheckWinner(c.game.board)
    ensures c.game.board == g.board[cell := Mark(g.currentPlayer)]
    ensures c.game.players == g.players && c.game.usernames == g.usernames
    ensures c.game.timeoutJob == g.timeoutJob && c.game.lastMove == g.lastMove
    ensures c.outcome != Ongoing ==> c.game.gameOver && c.game.currentPlayer == g.currentPlayer
    ensures c.outcome == Ongoing ==> c.game.gameOver == g.gameOver && c.game.currentPlayer == Other(g.currentPlayer)
  {
    var board := g.board[cell := Mark(g.currentPlayer)];
    var outcome := CheckWinner(board);
    if outcome != Ongoing then Played(g.(board := board, gameOver := true), outcome)
    else Played(g.(board := board, currentPlayer := Other(g.currentPlayer)), outcome)
  }

  /** The presser takes the seat of the current symbol, and the timeout job is dropped. */
  function TakeSeat(g: Game, userId: int, name: string): (n: Game)
    ensures n.players.Get(g.currentPlayer) == Human(userId)
    ensures n.players.Get(Other(g.currentPlayer)) == g.players.Get(Other(g.currentPlayer))
    ensures n.usernames == g.usernames[Human(userId) := name] && n.timeoutJob == None
    ensures n.board == g.board && n.currentPlayer == g.currentPlayer && n.gameOver == g.gameOver
  {
    g.(players := g.players.Set(g.currentPlayer, Human(userId)),
       userSymbols := g.userSymbols[userId := g.currentPlayer],
       usernames := g.usernames[Human(userId) := name],
       timeoutJob := None)
  }

  /**
   * The cell branch of `button_click`. An occupied cell is ignored. If the
   * current symbol's seat is empty, the presser takes it (unless they hold the
   * other seat) and the timeout job is dropped; a seat held by someone else
   * ignores the press. Then the move is played. `game_over` is not read.
   */
  function ClickCell(g: Game, userId: int, name: string, cell: nat): (c: Click)
    requires cell < 9
    ensures g.board[cell].Mark? ==> c == Ignored
    ensures c.Played? ==> c.game.players.Get(g.currentPlayer) == Human(userId)
    ensures c.Played? ==> c.game.players.Get(Other(g.currentPlayer)) == g.players.Get(Other(g.currentPlayer))
  {
    var symbol := g.currentPlayer;
    if g.board[cell].Mark? then Ignored
    else if g.players.Get(symbol) == Vacant && g.players.Get(Other(symbol)) == Human(userId) then Ignored
    else if g.players.Get(symbol) != Vacant && g.players.Get(symbol) != Human(userId) then Ignored
    else if g.players.Get(symbol) == Vacant then PlayMove(TakeSeat(g, userId, name), cell)
    else PlayMove(g, cell)
  }

  /** A press by anyone but the holder of the current seat changes nothing. */
  lemma StrangerCannotMove(g: Game, userId: int, name: string, cell: nat)
    requires cell < 9
    requires g.players.Get(g.currentPlayer) != Vacant && g.players.Get(g.currentPlayer) != Human(userId)
    ensures ClickCell(g, userId, name, cell) == Ignored
  {
  }

  /** One user cannot hold both seats: the holder of the other seat cannot take the empty current one. */
  lemma NoPlayingBothSides(g: Game, userId: int, name: string, cell: nat)
    requires cell < 9
    requires g.players.Get(g.currentPlayer) == Vacant && g.players.Get(Other(g.currentPlayer)) == Human(userId)
    ensures ClickCell(g, userId, name, cell) == Ignored
  {
  }

  /**
   * Exactly which presses are played: an empty cell, pressed by the holder of
   * the current seat, or by anyone but the other seat's holder while the
   * current seat is empty. The holder's own press is the move itself.
   */
  lemma ClickPlayedExactly(g: Game, userId: int, name: string, cell: nat)
    requires cell < 9
    ensures ClickCell(g, userId, name, cell).Played? <==>
      && g.board[cell].Empty?
      && (|| g.players.Get(g.currentPlayer) == Human(userId)
          || (g.players.Get(g.currentPlayer) == Vacant && g.players.Get(Other(g.currentPlayer)) != Human(userId)))
    ensures g.board[cell].Empty? && g.players.Get(g.currentPlayer) == Human(userId) ==>
      ClickCell(g, userId, name, cell) == PlayMove(g, cell)
  {
  }

  /** A press on an empty current seat seats the presser, drops the timeout job, and plays the same press. */
  lemma JoinSeatsAndPlays(g: Game, userId: int, name: string, cell: nat)
    requires cell < 9 && g.board[cell].Empty?
    requires g.players.Get(g.currentPlayer) == Vacant && g.players.Get(Other(g.currentPlayer)) != Human(userId)
    ensures ClickCell(g, userId, name, cell).Played?
    ensures var n := ClickCell(g, userId, name, cell).game;
      && n.players.Get(g.currentPlayer) == Human(userId)
      && n.players.Get(Other(g.currentPlayer)) == g.players.Get(Other(g.currentPlayer))
      && n.timeoutJob == None
      && n.board[cell] == Mark(g.currentPlayer)
  {
  }

  /**
   * A move marks exactly the pressed cell, which was empty, with the current
   * symbol; an outcome ends the game without passing the turn, no outcome
   * passes the turn and leaves `game_over` as it was.
   */
  lemma {:induction false} MoveMarksOneCell(g: Game, userId: int, name: string, cell: nat)
    requires cell < 9
    requires ClickCell(g, userId, name, cell).Played?
    ensures var Played(n, outcome) := ClickCell(g, userId, name, cell);
      && g.board[cell].Empty?
      && n.board == g.board[cell := Mark(g.currentPlayer)]
      && EmptyCount(n.board) == EmptyCount(g.board) - 1
      && outcome == CheckWinner(n.board)
      && (outcome != Ongoing ==> n.gameOver && n.currentPlayer == g.currentPlayer)
      && (outcome == Ongoing ==> n.gameOver == g.gameOver && n.currentPlayer == Other(g.currentPlayer))
  {
    MarkingTakesOneEmptyCell(g.board, cell, g.currentPlayer);
  }

  /** The press does not consult `game_over`: a finished game accepts the same presses as a running one. */
  lemma ClickIgnoresGameOver(g: Game, userId: int, name: string, cell: nat)
    requires cell < 9
    ensures ClickCell(g.(gameOver := true), userId, name, cell).Played? == ClickCell(g, userId, name, cell).Played?
  {
  }

  /** A press keeps the record invariants. */
  lemma ClickKeepsGameValid(g: Game, userId: int, name: string, cell: nat)
    requires cell < 9 && GameValid(g)
    requires ClickCell(g, userId, name, cell).Played?
    ensures GameValid(ClickCell(g, userId, name, cell).game)
  {
    var seated := g;
    if g.players.Get(g.currentPlayer) == Vacant {
      seated := TakeSeat(g, userId, name);
      TakeSeatKeepsGameValid(g, userId, name);
    }
    assert ClickCell(g, userId, name, cell) == PlayMove(seated, cell);
    PlayMoveKeepsGameValid(seated, cell);
  }

  /** Taking the empty current seat keeps the record invariants, provided the presser does not hold the other seat. */
  lemma TakeSeatKeepsGameValid(g: Game, userId: int, name: string)
    requires GameValid(g) && g.players.Get(Other(g.currentPlayer)) != Human(userId)
    ensures GameValid(TakeSeat(g, userId, name))
  {
    var n := TakeSeat(g, userId, name);
    forall s: Symbol | n.players.Get(s) != Vacant ensures n.players.Get(s) in n.usernames {
      if s != g.currentPlayer {
        assert s == Other(g.currentPlayer);
      }
    }
  }

  /** Marking an empty cell keeps the record invariants. */
  lemma PlayMoveKeepsGameValid(g: Game, cell: nat)
    requires cell < 9 && GameValid(g) && g.board[cell].Empty?
    ensures GameValid(PlayMove(g, cell).game)
  {
    var n := PlayMove(g, cell).game;
    forall s: Symbol | n.players.Get(s) != Vacant ensures n.players.Get(s) in n.usernames {
      assert n.players.Get(s) == g.players.Get(s);
    }
  }

  /** `str(x)` of a seat value: the user id, the string "AI", or "None". */
  function SeatText(seat: Seat): string {
    match seat
    case Vacant => "None"
    case Human(id) => Text.IntToString(id)
    case Ai => "AI"
  }

  /** `usernames.get(players[winner], str(players[winner]))` */
  function WinnerName(g: Game, winner: Symbol): (name: string)
    ensures g.players.Get(winner) in g.usernames ==> name == g.usernames[g.players.Get(winner)]
  {
    var seat := g.players.Get(winner);
    if seat in g.usernames then g.usernames[seat] else SeatText(seat)
  }

  /**
   * The statistics update on a finished game, applied to the chat's counters:
   * one more game, and one more draw, or one more win credited to the
   * winner's name.
   */
  function RecordResult(s: Stats, outcome: Outcome, winnerName: string): (r: Stats)
    requires outcome != Ongoing
  {
    var counted := s.(games := s.games + 1);
    if outcome == Draw then counted.(draws := counted.draws + 1)
    else counted.(wins := counted.wins + 1, topPlayers := Bump(counted.topPlayers, winnerName))
  }

  /**
   * Recording a result counts one game and exactly one of a win or a draw, a
   * win also counts for the winner's name, and `games == wins + draws` holds
   * afterwards.
   */
  lemma RecordResultKeepsStatsValid(s: Stats, outcome: Outcome, winnerName: string)
    requires outcome != Ongoing && StatsValid(s)
    ensures var r := RecordResult(s, outcome, winnerName);
      && StatsValid(r)
      && r.games == s.games + 1
      && (outcome == Draw ==> r.draws == s.draws + 1 && r.wins == s.wins && r.topPlayers == s.topPlayers)
      && (outcome.Won? ==> r.wins == s.wins + 1 && r.draws == s.draws
                           && CountOf(r.topPlayers, winnerName) == CountOf(s.topPlayers, winnerName) + 1)
  {
    BumpCountsOneWin(s.topPlayers, winnerName);
  }

  /** The name a result is credited to: the winner's, or none for a draw. */
  function ResultName(g: Game, outcome: Outcome): string {
    if outcome.Won? then WinnerName(g, outcome.symbol) else ""
  }

  /**
   * `game_timeout`: the game is cancelled only while it is running and the
   * seat of the symbol that is not to move is empty.
   */
  predicate TimesOut(g: Game) {
    !g.gameOver && !Truthy(g.players.Get(Other(g.currentPlayer)))
  }

  /**
   * Because the timeout looks at the seat opposite the current player, a
   * game whose initiator has made the first move is no longer cancelled,
   * although its second seat is still empty.
   */
  lemma TimeoutMissedAfterFirstMove(chatId: int, userId: int, name: string, first: Symbol, theme: Theme,
                                    messageId: int, jobId: int, cell: nat)
    requires cell < 9
    ensures var g := FreshGame(chatId, userId, name, first, theme, messageId, jobId);
      var c := ClickCell(g, userId, name, cell);
      && c.Played? && c.game.players.Get(Other(first)) == Vacant
      && (c.outcome == Ongoing && userId != 0 ==> !TimesOut(c.game))
  {
    var g := FreshGame(chatId, userId, name, first, theme, messageId, jobId);
    assert g.board[cell] == Empty(cell + 1);
  }

  /**
   * `new_game`: a banned user, or a chat whose game is still running, changes
   * nothing. Otherwise the old record's timeout job is cancelled, the record is
   * replaced by a fresh game, and a timeout job is scheduled.
   */
  method NewGame(st: BotState, chatId: int, userId: int, username: Option<string>, chosenTheme: Option<string>,
                 first: Symbol, sentMessageId: int, jobId: int)
    requires st.Valid()
    modifies st
    ensures st.Valid()
    ensures st.bannedUsers == old(st.bannedUsers) && st.chatStats == old(st.chatStats)
    ensures IsBanned(old(st.bannedUsers), userId, username) || ActiveGame(old(st.games), chatId) ==>
              st.games == old(st.games) && st.cancelledJobs == old(st.cancelledJobs)
    ensures !IsBanned(old(st.bannedUsers), userId, username) && !ActiveGame(old(st.games), chatId) ==>
              && st.games == old(st.games)[chatId := FreshGame(chatId, userId, DisplayName(userId, username), first,
                                                               ChosenTheme(chosenTheme), sentMessageId, jobId)]
              && st.cancelledJobs == old(st.cancelledJobs) +
                   (if chatId in old(st.games) && old(st.games)[chatId].timeoutJob.Some?
                    then [old(st.games)[chatId].timeoutJob.value] else [])
  {
    if IsBanned(st.bannedUsers, userId, username) {
      return;
    }
    if ActiveGame(st.games, chatId) {
      return;
    }
    if chatId in st.games && st.games[chatId].timeoutJob.Some? {
      st.cancelledJobs := st.cancelledJobs + [st.games[chatId].timeoutJob.value];
    }
    // The record is deleted and then stored afresh: one overwrite of the key.
    var created := FreshGame(chatId, userId, DisplayName(userId, username), first, ChosenTheme(chosenTheme), sentMessageId, jobId);
    GamesValidUpdate(st.games, chatId, created);
    st.games := st.games[chatId := created];
  }

  /** `message_id and message_id != game_data.get('message_id')`: the press came from an older message. */
  predicate Stale(messageId: int, g: Game) {
    messageId != 0 && g.messageId != Some(messageId)
  }

  /**
   * The cell branch of `button_click` on the chat's game: `ClickCell`, the
   * cancellation of the timeout job when the press seats the second player,
   * and, on an outcome, the statistics update.
   */
  method PressCell(st: BotState, chatId: int, userId: int, username: Option<string>, cell: nat)
    requires st.Valid() && chatId in st.games && cell < 9
    modifies st
    ensures st.Valid()
    ensures st.bannedUsers == old(st.bannedUsers)
    ensures var g := old(st.games)[chatId];
      var click := ClickCell(g, userId, DisplayName(userId, username), cell);
      && (click.Ignored? ==>
            st.games == old(st.games) && st.chatStats == old(st.chatStats) && st.cancelledJobs == old(st.cancelledJobs))
      && (click.Played? ==>
            && st.games == old(st.games)[chatId := click.game]
            && st.chatStats == (if click.outcome == Ongoing then old(st.chatStats)
                                else old(st.chatStats)[chatId := RecordResult(StatsOf(old(st.chatStats), chatId), click.outcome,
                                                                              ResultName(click.game, click.outcome))])
            && st.cancelledJobs == old(st.cancelledJobs) +
                 (if g.players.Get(g.currentPlayer) == Vacant && g.timeoutJob.Some? then [g.timeoutJob.value] else []))
  {
    var g := st.games[chatId];
    var name := DisplayName(userId, username);
    var click := ClickCell(g, userId, name, cell);
    if click.Ignored? {
      return;
    }
    ClickKeepsGameValid(g, userId, name, cell);
    StoreClick(st, chatId, click.game);
    if click.outcome != Ongoing {
      RecordStats(st, chatId, click.outcome, ResultName(click.game, click.outcome));
    }
  }

  /**
   * The record half of a played press: the new record is stored and, when the
   * press seated the second player, the old timeout job is cancelled.
   */
  method StoreClick(st: BotState, chatId: int, played: Game)
    requires st.Valid() && chatId in st.games && GameValid(played)
    modifies st
    ensures st.Valid()
    ensures st.games == old(st.games)[chatId := played]
    ensures var g := old(st.games)[chatId];
      st.cancelledJobs == old(st.cancelledJobs) +
        (if g.players.Get(g.currentPlayer) == Vacant && g.timeoutJob.Some? then [g.timeoutJob.value] else [])
    ensures st.bannedUsers == old(st.bannedUsers) && st.chatStats == old(st.chatStats)
  {
    var g := st.games[chatId];
    if g.players.Get(g.currentPlayer) == Vacant && g.timeoutJob.Some? {
      st.cancelledJobs := st.cancelledJobs + [g.timeoutJob.value];
    }
    GamesValidUpdate(st.games, chatId, played);
    st.games := st.games[chatId := played];
  }

  /** The statistics half of a finished game: the chat's counters after `RecordResult`. */
  method RecordStats(st: BotState, chatId: int, outcome: Outcome, winnerName: string)
    requires st.Valid() && outcome != Ongoing
    modifies st
    ensures st.Valid()
    ensures st.chatStats == old(st.chatStats)[chatId := RecordResult(StatsOf(old(st.chatStats), chatId), outcome, winnerName)]
    ensures st.games == old(st.games) && st.bannedUsers == old(st.bannedUsers) && st.cancelledJobs == old(st.cancelledJobs)
  {
    var stats := StatsOf(st.chatStats, chatId);
    var updated := RecordResult(stats, outcome, winnerName);
    assert StatsValid(updated) by {
      RecordResultKeepsStatsValid(stats, outcome, winnerName);
    }
    AllStatsValidUpdate(st.chatStats, chatId, updated);
    st.chatStats := st.chatStats[chatId := updated];
  }

  /** The guards `button_click` passes before it looks at the callback data. */
  predicate PressAccepted(st_games: map<int, Game>, banned: set<string>, chatId: int, userId: int,
                          username: Option<string>, messageId: int)
  {
    !IsBanned(banned, userId, username) && chatId in st_games && !Stale(messageId, st_games[chatId])
  }

  /**
   * `button_click`. A banned presser, a chat without a game, a press on an
   * old message and "noop" change nothing; "new_game" runs `new_game` for the
   * presser; a cell press runs `PressCell`. Other chats are never touched.
   * `messageId` is the id of the message whose keyboard was pressed.
   */
  method ButtonClick(st: BotState, chatId: int, userId: int, username: Option<string>, messageId: int,
                     data: CallbackData, chosenTheme: Option<string>, first: Symbol, sentMessageId: int, jobId: int)
    requires st.Valid()
    requires data.CellData? ==> data.cell < 9
    modifies st
    ensures st.Valid()
    ensures st.bannedUsers == old(st.bannedUsers)
    ensures forall c :: c != chatId && c in old(st.games) ==> c in st.games && st.games[c] == old(st.games)[c]
    ensures forall c :: c != chatId && c in old(st.chatStats) ==> c in st.chatStats && st.chatStats[c] == old(st.chatStats)[c]
    ensures !PressAccepted(old(st.games), old(st.bannedUsers), chatId, userId, username, messageId) || data == NoopData ==>
              st.games == old(st.games) && st.chatStats == old(st.chatStats) && st.cancelledJobs == old(st.cancelledJobs)
    ensures PressAccepted(old(st.games), old(st.bannedUsers), chatId, userId, username, messageId) && data == NewGameData ==>
              && st.chatStats == old(st.chatStats)
              && (ActiveGame(old(st.games), chatId) ==> st.games == old(st.games) && st.cancelledJobs == old(st.cancelledJobs))
              && (!ActiveGame(old(st.games), chatId) ==>
                    && st.games == old(st.games)[chatId := FreshGame(chatId, userId, DisplayName(userId, username), first,
                                                                    ChosenTheme(chosenTheme), sentMessageId, jobId)]
                    && st.cancelledJobs == old(st.cancelledJobs) +
                         (if old(st.games)[chatId].timeoutJob.Some? then [old(st.games)[chatId].timeoutJob.value] else []))
    ensures PressAccepted(old(st.games), old(st.bannedUsers), chatId, userId, username, messageId) && data.CellData? ==>
              var g := old(st.games)[chatId];
              var click := ClickCell(g, userId, DisplayName(userId, username), data.cell);
              && (click.Ignored? ==>
                    st.games == old(st.games) && st.chatStats == old(st.chatStats) && st.cancelledJobs == old(st.cancelledJobs))
              && (click.Played? ==>
                    && st.games == old(st.games)[chatId := click.game]
                    && st.chatStats == (if click.outcome == Ongoing then old(st.chatStats)
                                        else old(st.chatStats)[chatId := RecordResult(StatsOf(old(st.chatStats), chatId),
                                                                                      click.outcome, ResultName(click.game, click.outcome))])
                    && st.cancelledJobs == old(st.cancelledJobs) +
                         (if g.players.Get(g.currentPlayer) == Vacant && g.timeoutJob.Some? then [g.timeoutJob.value] else []))
  {
    if IsBanned(st.bannedUsers, userId, username) {
      return;
    }
    if chatId !in st.games {
      return;
    }
    if Stale(messageId, st.games[chatId]) {
      return;
    }
    match data
    case NoopData =>
      return;
    case NewGameData =>
      NewGame(st, chatId, userId, username, chosenTheme, first, sentMessageId, jobId);
    case CellData(cell) =>
      PressCell(st, chatId, userId, username, cell);
  }

  /**
   * `game_timeout` for `job`: if the chat's game still `TimesOut`, it is
   * finished and loses its job reference; otherwise nothing changes. The
   * "time is up" edit is taken to succeed.
   */
  method GameTimeout(st: BotState, job: Job)
    requires st.Valid()
    modifies st
    ensures st.Valid()
    ensures st.bannedUsers == old(st.bannedUsers) && st.chatStats == old(st.chatStats)
    ensures st.cancelledJobs == old(st.cancelledJobs)
    ensures job.chatId in old(st.games) && TimesOut(old(st.games)[job.chatId]) ==>
              st.games == old(st.games)[job.chatId := old(st.games)[job.chatId].(gameOver := true, timeoutJob := None)]
    ensures !(job.chatId in old(st.games) && TimesOut(old(st.games)[job.chatId])) ==> st.games == old(st.games)
  {
    var chatId := job.chatId;
    if chatId in st.games {
      var g := st.games[chatId];
      if TimesOut(g) {
        st.games := st.games[chatId := g.(gameOver := true, timeoutJob := None)];
      }
    }
  }
}
