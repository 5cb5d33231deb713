/**
 * The shared state of game_state.py: the per-chat game records, the ban set and
 * the per-chat statistics. In the source these are module-level dict and set
 * globals that every handler mutates; here they are the fields of `BotState`,
 * and a game record (a dict in the source) is a `Game` value that handlers
 * replace in the `games` map.
 */
module GameState {
  import opened Wrappers
  import opened Board
  import opened Config

  /**
   * What `game_data['players'][symbol]` holds: nothing yet (`None`), a Telegram
   * user id, or the string `"AI"` of a game against the computer.
   */
  datatype Seat = Vacant | Human(id: int) | Ai

  /** Python truthiness of a seat value: `None` and the user id `0` are false. */
  predicate Truthy(seat: Seat) {
    seat.Ai? || (seat.Human? && seat.id != 0)
  }

  /** The `players` dict, which always has exactly the keys 'X' and 'O'. */
  datatype Seats = Seats(x: Seat, o: Seat) {

    function Get(s: Symbol): Seat {
      if s == X then x else o
    }

    /** `players[s] = v`: the other seat keeps its holder. */
    function Set(s: Symbol, v: Seat): (r: Seats)
      ensures r.Get(s) == v && r.Get(Other(s)) == Get(Other(s))
    {
      if s == X then Seats(v, o) else Seats(x, v)
    }
  }

  /**
   * A job scheduled with `job_queue.run_once(game_timeout, when=delay, data=...)`:
   * `id` stands for the opaque handle the job queue returns, `chatId` and
   * `messageId` for the job's data dict.
   */
  datatype Job = Job(id: int, chatId: int, messageId: int, delay: nat)

  /** One chat's game record (`game_data`). Keys absent in the source dict are `None` or `false`. */
  datatype Game = Game(
    board: Board,
    currentPlayer: Symbol,
    gameOver: bool,
    players: Seats,
    userSymbols: map<int, Symbol>,
    usernames: map<Seat, string>,
    messageId: Option<int>,
    timeoutJob: Option<Job>,
    themeEmojis: Theme,
    vsAi: bool,
    aiSymbol: Option<Symbol>,
    lastMove: Option<int>)

  /**
   * The record invariants every handler keeps: cells keep their numbers, one
   * identity never holds both seats, and every seated player has a display name.
   */
  ghost predicate GameValid(g: Game) {
    && NumberedCells(g.board)
    && (g.players.x == g.players.o ==> g.players.x == Vacant)
    && (forall s: Symbol :: g.players.Get(s) != Vacant ==> g.players.Get(s) in g.usernames)
  }

  /**
   * `chat_stats[chat_id]`. `top_players` is a dict from winner name to win
   * count; Python dicts keep insertion order, which the stable sort of
   * chat_stats_command exposes, so it is kept as a sequence of pairs.
   */
  datatype Stats = Stats(games: nat, wins: nat, draws: nat, topPlayers: seq<(string, nat)>)

  /** The value `chat_stats.setdefault` inserts. */
  const NoStats := Stats(0, 0, 0, [])

  ghost predicate DistinctNames(top: seq<(string, nat)>) {
    forall i, j :: 0 <= i < j < |top| ==> top[i].0 != top[j].0
  }

  function SumCounts(top: seq<(string, nat)>): nat {
    if top == [] then 0 else top[0].1 + SumCounts(top[1..])
  }

  /** `top[name] = top.get(name, 0) + 1`: an existing entry keeps its place, a new one goes last. */
  function Bump(top: seq<(string, nat)>, name: string): (r: seq<(string, nat)>)
    ensures |r| == |top| || r == top + [(name, 1)]
  {
    if top == [] then [(name, 1)]
    else if top[0].0 == name then [(name, top[0].1 + 1)] + top[1..]
    else [top[0]] + Bump(top[1..], name)
  }

  /** Looking a name up in the ordered dict. */
  function CountOf(top: seq<(string, nat)>, name: string): nat {
    if top == [] then 0 else if top[0].0 == name then top[0].1 else CountOf(top[1..], name)
  }

  /**
   * Bumping a name adds one to its count and to the total, leaves every other
   * name's count alone and keeps names distinct.
   */
  lemma {:induction false} BumpCountsOneWin(top: seq<(string, nat)>, name: string)
    requires DistinctNames(top)
    ensures SumCounts(Bump(top, name)) == SumCounts(top) + 1
    ensures CountOf(Bump(top, name), name) == CountOf(top, name) + 1
    ensures forall other :: other != name ==> CountOf(Bump(top, name), other) == CountOf(top, other)
    ensures DistinctNames(Bump(top, name))
    ensures forall k :: 0 <= k < |Bump(top, name)| ==> Bump(top, name)[k].0 == name || exists j :: 0 <= j < |top| && top[j].0 == Bump(top, name)[k].0
  {
    if top != [] && top[0].0 != name {
      BumpCountsOneWin(top[1..], name);
      var r := Bump(top, name);
      assert r == [top[0]] + Bump(top[1..], name);
      forall i, j | 0 <= i < j < |r| ensures r[i].0 != r[j].0 {
        if i == 0 {
          assert r[j] == Bump(top[1..], name)[j - 1];
          if r[j].0 != name {
            var m :| 0 <= m < |top[1..]| && top[1..][m].0 == r[j].0;
            assert top[m + 1].0 == r[j].0;
          }
        }
      }
      forall k | 0 <= k < |r| && r[k].0 != name ensures exists j :: 0 <= j < |top| && top[j].0 == r[k].0 {
        if k == 0 {
          assert top[0].0 == r[k].0;
        } else {
          assert r[k] == Bump(top[1..], name)[k - 1];
          var m :| 0 <= m < |top[1..]| && top[1..][m].0 == r[k].0;
          assert top[m + 1].0 == r[k].0;
        }
      }
    } else if top != [] {
      var r := Bump(top, name);
      assert r[1..] == top[1..];
      forall i, j | 0 <= i < j < |r| ensures r[i].0 != r[j].0 {
        assert r[i].0 == top[i].0 && r[j].0 == top[j].0;
      }
    }
  }

  /**
   * The statistics invariant: every counted game was a win or a draw, every
   * win was credited to exactly one named player, and names are keys.
   */
  ghost predicate StatsValid(s: Stats) {
    && s.games == s.wins + s.draws
    && SumCounts(s.topPlayers) == s.wins
    && DistinctNames(s.topPlayers)
  }

  ghost predicate GamesValid(games: map<int, Game>) {
    forall c :: c in games ==> GameValid(games[c])
  }

  ghost predicate AllStatsValid(stats: map<int, Stats>) {
    forall c :: c in stats ==> StatsValid(stats[c])
  }

  /** Storing a valid record keeps the store of records valid. */
  lemma GamesValidUpdate(games: map<int, Game>, chatId: int, g: Game)
    requires GamesValid(games) && GameValid(g)
    ensures GamesValid(games[chatId := g])
  {}

  /** Storing valid counters keeps the store of counters valid. */
  lemma AllStatsValidUpdate(stats: map<int, Stats>, chatId: int, s: Stats)
    requires AllStatsValid(stats) && StatsValid(s)
    ensures AllStatsValid(stats[chatId := s])
  {}

  /** `chat_stats.setdefault(chat_id, {...})` read side: the chat's counters, or fresh zeros. */
  function StatsOf(stats: map<int, Stats>, chatId: int): Stats {
    if chatId in stats then stats[chatId] else NoStats
  }

  /** The module-level stores of game_state.py, owned by the handlers of the `handlers/` package. */
  class BotState {
    var games: map<int, Game>
    var bannedUsers: set<string>
    var chatStats: map<int, Stats>
    /** The jobs on which the handlers called `schedule_removal()`, oldest first. */
    var cancelledJobs: seq<Job>

    ghost predicate Valid()
      reads this
    {
      GamesValid(games) && AllStatsValid(chatStats)
    }

    constructor ()
      ensures Valid()
      ensures games == map[] && bannedUsers == {} && chatStats == map[] && cancelledJobs == []
    {
      games, bannedUsers, chatStats, cancelledJobs := map[], {}, map[], [];
    }
  }
}
