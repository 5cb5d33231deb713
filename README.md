# Tic-tac-toe bot engine in Dafny

A Dafny model of the game engine of a Telegram tic-tac-toe bot, with proofs about it. The model covers:

- the win detector and the inline-keyboard layout (`game_logic.py`);
- the minimax opponent (`game_ai.py`);
- the per-chat game records and statistics that the handlers of the `handlers/` package mutate (`new_game`, `button_click`, `game_timeout`, `play_ai`, `ai_move`);
- the older, unregistered handler variant `handlers.py`, kept as a separate state machine;
- the admin commands (reset, ban, unban, the statistics report);
- the VIP registry (`vip.py`).

A board is nine cells. An unplayed cell is `Empty(n)`, where `n` is the number the source stores in it. A played cell is `Mark(X)` or `Mark(O)`. A game record (the source's `game_data` dict) is the value type `Game`.

The stores are classes whose methods reassign their map and set fields:

- `BotState` holds `games`, `banned_users`, `chat_stats`, and the jobs whose removal was scheduled.
- `LegacyBot` is the same kind of store for `handlers.py`. It adds the per-user theme choice from `context.user_data`.
- `VipStore` holds the VIP sets and dicts.

Handlers are methods on these stores. Each method's postcondition gives the whole new state as a function of the old state. The functions and lemmas beside it state what the source promises about that function.

The handlers' inputs from outside become method parameters:

- Telegram update fields: user id, username, chat id, callback data, and the pressed message's id.
- The symbol `random.choice` draws.
- The id of the sent start message.
- The handle the job queue returns.
- The `datetime.now()` instant.

Module layout:

- `board.dfy`, `config.dfy`, `text.dfy`, `wrappers.dfy`: cells and boards, the theme table and timeout constant, decimal `str()`, `Option`.
- `game_state.dfy`: the record, seat and statistics types, their invariants, and `BotState`.
- `game_logic.dfy`, `game_ai.dfy`: the pure engine.
- `game_handlers.dfy`, `ai_handlers.dfy`, `legacy_handlers.dfy`, `admin_handlers.dfy`, `vip.dfy`: the handlers and stores.

Where the code does something other than what its own docstrings, comments and messages announce, the model follows the code:

- **Timeout after the first move.** The docstring of `game_timeout` (handlers/game_handlers.py:204) describes it as the timeout for waiting for the second player. The code, however, looks at the seat of the symbol *opposite* `current_player`. Once the initiator has moved, that seat is the initiator's own, so the timeout no longer fires even though the second seat is still empty. `GameHandlers.TimeoutMissedAfterFirstMove` proves this.
- **Games against the computer stall.** `play_ai` announces a game against the computer (handlers/ai_handlers.py:53-68), but `button_click` never calls `ai_move`. After the user's first move in a game against the computer, every press is ignored. `AiHandlers.AiGameStallsAfterFirstMove` proves this. `ai_move` is modelled as an operation of its own.
- **No tie-break toward the immediate win.** With no depth discount, the computer's chosen cell can be an earlier cell that also forces a win, not the cell that wins at once. `GameAi.ImmediateWinScoresOne` promises only the score +1 and a chosen child that scores +1.

## Model

| member | source | states |
|---|---|---|
| GameLogic.CheckWinner | game_logic.py:92-115 | A win is reported exactly when some line holds three equal marks. The reported line is the first such line in row, column, diagonal order, and all three of its cells hold the winner's mark. The result is a draw exactly when no line wins and no cell is empty, and undecided exactly when no line wins and some cell is empty. |
| GameLogic.FirstWinningLine | game_logic.py:108-110 | The scan from position k returns the first winning line at or after k, or none when no line from k on wins. |
| GameLogic.LinesAreLines | game_logic.py:102-106 | There are eight lines, each of three in-range cell indices. |
| GameLogic.CheckWinnerWonOnFullBoard | game_logic.py:108-113 | Lines are checked before fullness, so a full board that holds a line is a win, not a draw. |
| GameLogic.MoveWinsOnlyForMover | game_logic.py:108-110 | On a board nobody has won, marking one empty cell can only produce a win for the symbol just placed. |
| GameLogic.GetSymbolEmoji | game_logic.py:9-29 | X, O, an empty cell, X_win and O_win each take the theme's entry when present, else their own fallback emoji. Any other string is returned unchanged. |
| GameLogic.BuiltInThemesAreComplete | config.py:14-40 | Every built-in theme supplies its own X, O and empty-cell emoji, so no fallback is used. |
| GameLogic.CellCallback | game_logic.py:59-64 | A cell's callback differs from "noop" exactly when the cell is empty and the game is not over. It is then the single decimal digit of the cell's index. |
| GameLogic.PlainLabel | game_logic.py:58-71 | An empty cell shows the theme's empty emoji. A marked cell shows its symbol's `_win` emoji when it lies on the winning line of a finished game, and its plain emoji otherwise. |
| GameLogic.CellText | game_logic.py:58-75 | The label is exactly the plain label framed as 🟩 + label + 🟩 on the cell of the last move, and the plain label on every other cell. |
| GameLogic.WinEmojiExactlyOnWinningLine | game_logic.py:65-71 | With a built-in theme, a marked cell that is not the last move shows the winning emoji exactly when it is on the winning line of a finished game. |
| GameLogic.ControlRow | game_logic.py:81-88 | The control row is one button: "new_game" once the game is over, "change_theme_prompt" otherwise. |
| GameLogic.CellButton | game_logic.py:56-78 | The inner-loop body yields the button with that cell's label and callback. |
| GameLogic.RowButtons | game_logic.py:54-79 | The inner loop yields the three buttons of the row starting at cell i, in order. |
| GameLogic.GetKeyboard | game_logic.py:31-90 | Returns none exactly when the chat has no game. Otherwise it returns four rows: three rows of three cell buttons in board order, then the control row. |
| GameAi.Minimax | game_ai.py:8-37 | The score is always -1, 0 or +1. The index is absent exactly on a decided board, and otherwise names an empty cell of the input board. |
| GameAi.TerminalScore | game_ai.py:10-17 | A decided board scores -1 when the human holds the line, +1 when the computer does, and 0 for a draw. |
| GameAi.MinimaxScoresDecidedBoard | game_ai.py:10-17 | On a decided board the search returns no index and the terminal score: +1 for the computer's line, -1 for the human's, 0 for a draw. |
| GameAi.Step | game_ai.py:20-36 | One loop iteration keeps the accumulator a sentinel or a real move at an empty cell, and an empty cell at i always leaves a real move. |
| GameAi.Scan | game_ai.py:18-37 | The accumulator fold over cells i..8 returns the sentinel or a real move at an empty cell. If any empty cell remains from i on, it returns a real move. |
| GameAi.StepKeepsOrImproves | game_ai.py:20-36 | One loop step keeps `best` unless the child at i strictly improves on it, and then takes that child's score and index. |
| GameAi.ScanBound | game_ai.py:18-37 | The fold's result is at least as good, for the side to move, as its starting value and as every child from i on. |
| GameAi.ScanPicksFirstBest | game_ai.py:18-37 | When the fold replaces `best`, its index is the lowest cell whose child attains the returned score. That score strictly beats every earlier child. |
| GameAi.MinimaxIsBestChild | game_ai.py:18-37 | On an undecided board the score is the maximum (computer to move) or minimum (human to move) over the children. The index is the lowest empty cell attaining it. |
| GameAi.ImmediateWinScoresOne | game_ai.py:13-26 | If the computer can complete a line now, the best move scores +1, and the cell it picks leads to a child scoring +1. |
| GameAi.BestMove | game_ai.py:40-43 | The move is none exactly when the board is already won or full. Otherwise it is an empty cell of the unchanged input board. |
| Board.Other | handlers/game_handlers.py:59 | The other symbol differs from the given one. |
| Board.Initial | handlers/game_handlers.py:63 | The new board holds Empty(i + 1) at every index i. |
| Board.MarkingTakesOneEmptyCell | game_ai.py:22-24 | Marking an empty cell lowers the number of empty cells by exactly one. This is the measure the search's recursion decreases. |
| Config.ThemeFor | handlers/game_handlers.py:60-61 | A known theme key selects its theme; an unknown key falls back to the classic theme. |
| Text.IntToString | handlers/admin_handlers.py:33 | The decimal text of an id is non-empty and starts with '-' exactly for a negative id. |
| Text.NatToStringValue | handlers/admin_handlers.py:33 | The digits of a natural number denote that number. |
| Text.IntToStringValue | handlers/admin_handlers.py:33 | Reading the text of an id back as a number gives the id: `int(str(i)) == i`. |
| Text.IntToStringInjective | handlers/game_handlers.py:106 | Two ids have the same text exactly when they are equal, so a ban entry made from an id matches only that id. |
| GameState.StatsOf | handlers/game_handlers.py:176 | The chat's statistics, or zero counts and no top players for a chat without any, as `setdefault` inserts. |
| GameState.Bump | handlers/game_handlers.py:190 | The top-player list after a win for a name: that name's entry raised by one, or a new entry with count 1 appended at the end, as a dict keeps insertion order. The list keeps its length or grows by that one entry. |
| GameState.BumpCountsOneWin | handlers/game_handlers.py:190 | Crediting a win to a name raises that name's count and the total of all counts by one. It leaves every other name's count alone, keeps names distinct, and introduces no name but the winner's. |
| GameState.BotState.constructor | game_state.py:1-9 | The stores start empty and satisfy the store invariants. |
| GameHandlers.DisplayName | handlers/game_handlers.py:29 | The name is the username when it is present and non-empty, else "player_" followed by the id. |
| GameHandlers.IsBanned | handlers/game_handlers.py:106 | A user is refused when the text of their id or their username is on the ban list. |
| GameHandlers.ActiveGame | handlers/game_handlers.py:38 | A chat has a running game exactly when it has a record that is not over. |
| GameHandlers.ChosenTheme | handlers/game_handlers.py:60-61 | The user's chosen theme key, or the default key, looked up with the default theme as fallback. |
| GameHandlers.FreshGame | handlers/game_handlers.py:57-96 | The new record has an empty board. The initiator holds the drawn symbol, which moves first, and the other seat is empty. The game is not over, a 90-second timeout job is attached, and the record invariant holds. |
| GameHandlers.TakeSeat | handlers/game_handlers.py:147-165 | Joining puts the presser in the current symbol's seat, keeps the other seat, records the presser's name and drops the timeout job. The board, the turn and the finished flag are unchanged. |
| GameHandlers.PlayMove | handlers/game_handlers.py:169-198 | The move marks the cell with the current symbol, and its outcome is `check_winner` of the new board. An outcome ends the game and keeps the current player; no outcome passes the turn. Seats, names, job and highlight are unchanged. |
| GameHandlers.ClickCell | handlers/game_handlers.py:139-198 | A press on a marked cell is ignored. A press that plays leaves the presser in the current symbol's seat and keeps the other seat as it was. ClickPlayedExactly states which presses play, and the lemmas after it state their effect. |
| GameHandlers.ClickPlayedExactly | handlers/game_handlers.py:139-170 | A press is played exactly when the cell is empty and the presser either holds the current seat or, while that seat is empty, does not hold the other one. The holder's press on an empty cell is the move itself, with no change of seats. |
| GameHandlers.StrangerCannotMove | handlers/game_handlers.py:166-168 | A press by anyone but the holder of the occupied current seat changes nothing. |
| GameHandlers.NoPlayingBothSides | handlers/game_handlers.py:147-152 | While the current seat is empty, the holder of the other seat cannot take it. |
| GameHandlers.JoinSeatsAndPlays | handlers/game_handlers.py:147-170 | A press on an empty cell with the current seat empty seats the presser and keeps the other seat. It drops the timeout job and marks the cell in the same press. |
| GameHandlers.MoveMarksOneCell | handlers/game_handlers.py:169-198 | A move marks exactly the pressed empty cell with the current symbol, so one fewer cell is empty. An outcome ends the game and keeps the current player; no outcome passes the turn. |
| GameHandlers.ClickIgnoresGameOver | handlers/game_handlers.py:139-143 | The cell branch does not read `game_over`: a finished game accepts exactly the same presses. |
| GameHandlers.ClickKeepsGameValid | handlers/game_handlers.py:147-158 | A press keeps the record invariant: cells keep their numbers, no identity holds both seats, and every seated player has a name. |
| GameHandlers.TakeSeatKeepsGameValid | handlers/game_handlers.py:147-158 | Taking the empty current seat keeps the record invariant, provided the presser does not hold the other seat, which is the guard at line 150. |
| GameHandlers.PlayMoveKeepsGameValid | handlers/game_handlers.py:169-170 | Marking an empty cell keeps the record invariant. |
| GameHandlers.WinnerName | handlers/game_handlers.py:188-189 | The winner's stored display name is used when there is one. |
| GameHandlers.RecordResult | handlers/game_handlers.py:176-190 | A finished game adds one game, and either one draw, or one win together with a bump of the winner's name. RecordResultKeepsStatsValid states the resulting counts. |
| GameHandlers.RecordResultKeepsStatsValid | handlers/game_handlers.py:176-190 | A finished game adds one game and exactly one draw or win, and a win adds one to the winner's count. `games == wins + draws`, counts summing to wins, and distinct names are all preserved. |
| GameHandlers.TimesOut | handlers/game_handlers.py:209 | A game times out when it is not over and the seat of the symbol not to move is falsy: empty, or holding user id 0. |
| GameHandlers.Stale | handlers/game_handlers.py:124 | A press is on an older message when its message id is non-zero and differs from the game's stored id. |
| GameHandlers.TimeoutMissedAfterFirstMove | handlers/game_handlers.py:209 | After the initiator's first move in a fresh game, the second seat is still empty, yet the timeout condition is false. |
| GameHandlers.NewGame | handlers/game_handlers.py:25-96 | A banned user, or a chat whose game is still running, changes nothing. Otherwise the old record's job is cancelled and the record is replaced by a fresh game. Statistics and bans are untouched, and the store invariant holds. |
| GameHandlers.PressCell | handlers/game_handlers.py:139-198 | The chat's record becomes the result of the press. The job is cancelled when the press seats a player. On an outcome the chat's statistics are updated; nothing else changes. |
| GameHandlers.StoreClick | handlers/game_handlers.py:147-170 | A played press stores the new record under the chat, and cancels the old timeout job exactly when the press filled the empty current seat while a job was pending. Bans and statistics do not change. |
| GameHandlers.RecordStats | handlers/game_handlers.py:176-190 | Only the chat's statistics change, to the recorded result, and the statistics invariant holds for every chat. |
| GameHandlers.ButtonClick | handlers/game_handlers.py:98-201 | A banned presser, a missing game, a press on an older message, or "noop" changes nothing. "new_game" runs new_game for the presser: a running game blocks it; otherwise the old job is cancelled and a fresh game is stored. A cell press sets the record to the press's result, cancels the job when the press seats a player, and records the result in the chat's statistics when the game ends. No other chat's record or statistics change. |
| GameHandlers.GameTimeout | handlers/game_handlers.py:203-217 | The chat's game is ended, and its job reference cleared, exactly when it is running and the seat opposite the current player is empty. Otherwise nothing changes. |
| AiHandlers.AiGame | handlers/ai_handlers.py:36-52 | The new record seats the user as X and the computer as O, with X to move on an empty board. It has no highlighted move and no timeout job, and it can never time out. |
| AiHandlers.PlayAi | handlers/ai_handlers.py:16-68 | A running game blocks the command. Otherwise the chat's record is replaced by the computer game, without cancelling the old job and without a ban check. |
| AiHandlers.AiTurn | handlers/ai_handlers.py:77-111 | The computer's turn on a record; AiTurnMarksChosenCell states its effect. |
| AiHandlers.AiPlace | handlers/ai_handlers.py:83-111 | The computer's mark on the chosen cell, highlighted as the last move. Its outcome is `check_winner` of the new board. An outcome ends the game; otherwise the turn passes to the human symbol. Seats, names and job are unchanged. |
| AiHandlers.AiTurnMarksChosenCell | handlers/ai_handlers.py:77-111 | The computer moves exactly when the board is undecided. It marks exactly the cell best_move chose, which was empty, and records it as the last move. It then ends the game or hands the turn to the human symbol. Seats and names are kept. |
| AiHandlers.AiTurnWinsOnlyForAi | handlers/ai_handlers.py:78-103 | A game the computer's move ends is a draw or the computer's win, never the human's. |
| AiHandlers.AiTurnKeepsGameValid | handlers/ai_handlers.py:83-85 | The computer's move keeps the record invariant. |
| AiHandlers.AiMove | handlers/ai_handlers.py:70-111 | The chat's record becomes the result of the computer's turn. When the game ends, the chat's statistics are updated as for a two-player game. Bans and jobs are untouched. |
| AiHandlers.AiGameStallsAfterFirstMove | handlers/game_handlers.py:139-168 | After the user's first move in a computer game, the game is still running with O to move, and every further cell press by anyone is ignored. |
| LegacyHandlers.LegacyBot.constructor | game_state.py:2 | The legacy store starts empty and valid. |
| LegacyHandlers.NewGame | handlers.py:21-107 | A missing message, or a chat whose game is still running, changes nothing. Otherwise the old job is cancelled and the record is replaced by a fresh game. Its theme is the one chosen by the user whose `user_data` the call sees. The record is removed again when the start message cannot be sent. |
| LegacyHandlers.PressCell | handlers.py:176-300 | The legacy press on a record; PressEffectExactly states which presses change it, and JoinPlacesNoMark, OutOfTurnOrOccupiedIgnored and MoveMarksOneCell state their effect. A move to a cell number past the board changes nothing. |
| LegacyHandlers.UserTheme | handlers.py:58-59 | The theme of the key the user chose, or the default theme when they chose none or an unknown key. |
| LegacyHandlers.Seated | handlers.py:491-492 | A user is a player of the game exactly when one of its two seats holds their id. |
| LegacyHandlers.PressEffectExactly | handlers.py:180-241 | A finished game ignores every press. A press joins exactly when the game runs, the second seat is empty and the presser does not hold the current seat. It is a move exactly when the game runs, both seats are taken, the presser holds the current seat and the cell is an empty cell of the board. |
| LegacyHandlers.JoinPlacesNoMark | handlers.py:189-228 | While the seat of the symbol not to move is empty, exactly the holder of the current seat is refused. Anyone else takes that seat and the timeout job is dropped, with no mark and no change of turn. |
| LegacyHandlers.OutOfTurnOrOccupiedIgnored | handlers.py:230-239 | Once both seats are taken, a press out of turn or on a marked cell changes nothing. |
| LegacyHandlers.MoveMarksOneCell | handlers.py:241-272 | A move requires a running game, the current seat holder and a cell on the board. It marks exactly the pressed empty cell; an outcome ends the game, otherwise the turn passes. Seats stay. |
| LegacyHandlers.PressKeepsGameValid | handlers.py:189-195 | A join or a move keeps the record invariant. |
| LegacyHandlers.LegacyStale | handlers.py:140 | A press is on an older message when both its message id and the game's stored id are non-zero and they differ. |
| LegacyHandlers.ButtonClick | handlers.py:109-300 | A missing game, a press on an older message, or "noop" changes nothing. "new_game" restarts only a finished game: it cancels the old job and stores a fresh game on behalf of the message's author, with the presser's theme. A cell press applies the legacy press and cancels the job on a join. No statistics are kept. |
| LegacyHandlers.GameTimeout | handlers.py:302-360 | A running game whose opposite seat is empty is ended. Whenever the chat has a record, its job reference is cleared afterwards and nothing else changes. |
| LegacyHandlers.SelectThemeIngame | handlers.py:478-508 | A seated user choosing a known theme changes the game's emojis and their own default theme, even in a finished game. Anything else changes nothing. |
| AdminHandlers.ResetGame | handlers/admin_handlers.py:12-23 | Unless the caller is the owner or a VIP nothing changes. Otherwise the chat's record is gone, finished or not, with its job left uncancelled. |
| AdminHandlers.LStripAt | handlers/admin_handlers.py:35 | The result is the argument with exactly its leading '@' characters removed: a suffix, preceded only by '@', not itself starting with '@'. |
| AdminHandlers.LStripAtIdempotent | handlers/admin_handlers.py:35 | Stripping a stripped name changes nothing. |
| AdminHandlers.Target | handlers/admin_handlers.py:31-38 | The target is the replied-to user's id as text, else the first argument stripped of leading '@', else none. |
| AdminHandlers.Authorised | handlers/admin_handlers.py:14 | The owner's username or VIP status admits a caller to reset, ban and unban. |
| AdminHandlers.Banned | handlers/admin_handlers.py:39 | An allowed ban with a target adds exactly that target and removes nothing; any other call leaves the list as it was. |
| AdminHandlers.Unbanned | handlers/admin_handlers.py:57-59 | An allowed unban with a target removes exactly that target and adds nothing; any other call leaves the list as it was. |
| AdminHandlers.BanUser | handlers/admin_handlers.py:25-41 | The ban list becomes the ban of the target when the caller is authorised. Games and statistics are never touched. |
| AdminHandlers.UnbanUser | handlers/admin_handlers.py:43-62 | The ban list becomes the unban of the target when the caller is authorised. Games and statistics are never touched. |
| AdminHandlers.BanThenUnban | handlers/admin_handlers.py:39-62 | Banning the same target twice leaves the list as one ban does, and unbanning a target that was not banned before undoes the ban. |
| AdminHandlers.ReplyBanBlocksExactlyThatUser | handlers/admin_handlers.py:31-39 | After a ban made by replying to a user, the game handlers refuse that user whatever their username. A list holding only that ban refuses no other id. |
| AdminHandlers.SortByWins | handlers/admin_handlers.py:80 | The sort by wins, an insertion sort; it keeps the number of entries, and the two lemmas below state order, stability and permutation. |
| AdminHandlers.SortByWinsIsStable | handlers/admin_handlers.py:80 | The sorted top list has non-increasing win counts. For every count, the entries with that count keep their original order, as Python's stable sort does. |
| AdminHandlers.SortByWinsPermutes | handlers/admin_handlers.py:80 | The sorted top list is a permutation of the stored one. |
| AdminHandlers.TopLines | handlers/admin_handlers.py:80-82 | Each report line carries the entry's name and wins, and is marked exactly when the name is a VIP name. |
| AdminHandlers.ChatStatsCommand | handlers/admin_handlers.py:64-83 | Only the owner gets a report, and only for a chat with statistics. It carries the three counters and the top list sorted by non-increasing wins as a permutation of the stored entries, with VIP markers. Nothing changes. |
| Vip.VipStore.constructor | vip.py:4-12 | The registry starts empty and valid. |
| Vip.VipStore.IsVip | vip.py:15-16 | A user is VIP exactly when their id is in the VIP set. |
| Vip.VipStore.IsVipByUsername | vip.py:19-20 | A name is a VIP name exactly when it is in the VIP username set. |
| Vip.VipStore.GetAvatar | vip.py:36-37 | The stored avatar, else the robot-face default. |
| Vip.VipStore.GetSignature | vip.py:45-47 | The stored signature, else the empty string. |
| Vip.VipStore.GetSubscriptionTime | vip.py:50-52 | Present exactly for a user with a subscription, which under the registry invariant means exactly a VIP. |
| Vip.VipStore.AddVip | vip.py:23-29 | The user becomes VIP with a subscription starting now. A present, non-empty username is recorded for the user and becomes a VIP name; otherwise the name stores are unchanged. Avatars and signatures are untouched, and the registry invariant holds. |
| Vip.VipStore.SetAvatar | vip.py:32-33 | The user's avatar reads back as the new emoji, every other user's avatar is unchanged, and no other store changes. |
| Vip.VipStore.SetSignature | vip.py:40-42 | The user's signature reads back as the new text, every other user's signature is unchanged, and no other store changes. |

## Left out

- Telegram I/O is not modelled: replies, message edits, `query.answer`, `escape_markdown` and all message wording. Edits that precede a state change are taken to succeed. `_restore_game_message` only edits text, so it is omitted.
- `random.choice`, the job queue (`run_once`, `schedule_removal`), `asyncio.sleep` and `datetime.now()` become parameters. A job's removal is recorded as an append to a list of cancelled jobs.
- Concurrency is not modelled. The source runs on one event loop without locks, and each handler here runs to completion.
- GameHandlers.NewGame: `reply_text` raising after the record is stored, which would leave a record without message id or job, is not modelled. The send is taken to succeed. The legacy `new_game` does handle this failure, and `LegacyHandlers.NewGame` models it.
- GameHandlers.ButtonClick: cell data is limited to 0-8, which the handler's registered pattern (handlers/game_handlers.py:248) guarantees.
- A callback query without a message is not modelled. Both `button_click` variants read `update.effective_chat.id` first, which raises in that case and changes nothing. The pressed message's id is therefore a plain number.
- AiHandlers.AiMove: requires a chat with a game against the computer, because the source raises `KeyError` otherwise.
- The legacy `new_game` button uses a synthetic update whose user is the author of the pressed message. That user is an explicit parameter (`initiatorId`, `initiatorName`). The new game's theme is still the presser's, because the call passes on the presser's `context`.
- Python truthiness is modelled where the source relies on it: a seat holding user id 0, and message id 0. Python's `str()` of an id is modelled only as decimal digits with an optional minus sign.
- The remaining handler modules are not part of this model: `handlers/theme_handlers.py` (menus, and a call to `vip.get_symbol`, which `vip.py` does not define), `handlers/vip_handlers.py` (payments through a foreign service), `handlers/admin_panel_handlers.py` (broadcast loop and status text) and `main.py` (webhook server and handler registration).
- The non-game handlers of `handlers.py` (`start`, `themes_command`, `select_theme_callback`, `change_theme_prompt_callback`, `cancel_theme_change_callback`) are left out; they only show menus or store a theme key.
- The text of the statistics report is not built. ChatStatsCommand returns the data the report prints.
