/**
 * handlers/admin_handlers.py: resetting a chat's game, the ban list and the
 * owner's statistics report. Replies and log lines are left out; the report
 * is returned as data instead of being sent as text.
 */
module AdminHandlers {
  import opened Wrappers
  import opened GameState
  import opened Vip
  import opened GameHandlers
  import Text

  /** The Telegram username of the bot's owner. */
  const OwnerUsername := "sadea12"

  /** The guard of `reset_game`, `ban_user` and `unban_user`: the owner or a VIP. */
  predicate Authorised(vip: VipStore, userId: int, username: Option<string>)
    reads vip
  {
    username == Some(OwnerUsername) || vip.IsVip(userId)
  }

  /**
   * `reset_game`: an unauthorised caller changes nothing; otherwise the chat's
   * record is deleted whether or not its game is over. Its timeout job is not
   * cancelled, and statistics and bans are untouched.
   */
  method ResetGame(st: BotState, vip: VipStore, chatId: int, userId: int, username: Option<string>)
    requires st.Valid()
    modifies st
    ensures st.Valid()
    ensures st.bannedUsers == old(st.bannedUsers) && st.chatStats == old(st.chatStats)
    ensures st.cancelledJobs == old(st.cancelledJobs)
    ensures !Authorised(vip, userId, username) ==> st.games == old(st.games)
    ensures Authorised(vip, userId, username) ==> st.games == old(st.games) - {chatId} && chatId !in st.games
  {
    if !Authorised(vip, userId, username) {
      return;
    }
    if chatId in st.games {
      st.games := st.games - {chatId};
    }
  }

  /** `s.lstrip('@')`: every leading '@' removed. */
  function LStripAt(s: string): (r: string)
    ensures |r| <= |s| && s[|s| - |r|..] == r
    ensures forall i :: 0 <= i < |s| - |r| ==> s[i] == '@'
    ensures r == [] || r[0] != '@'
  {
    if s != [] && s[0] == '@' then LStripAt(s[1..]) else s
  }

  /** Stripping is idempotent: a stripped name strips to itself. */
  lemma LStripAtIdempotent(s: string)
    ensures LStripAt(LStripAt(s)) == LStripAt(s)
  {
  }

  /**
   * The target of `ban_user` and `unban_user`: the id, as a string, of the
   * user whose message was replied to; otherwise the first argument without
   * its leading '@'s; otherwise none.
   */
  function Target(replyUserId: Option<int>, args: seq<string>): (t: Option<string>)
    ensures replyUserId.Some? ==> t == Some(Text.IntToString(replyUserId.value))
    ensures replyUserId.None? ==> (t.Some? <==> args != [])
    ensures replyUserId.None? && args != [] ==> t == Some(LStripAt(args[0]))
  {
    if replyUserId.Some? then Some(Text.IntToString(replyUserId.value))
    else if args != [] then Some(LStripAt(args[0]))
    else None
  }

  /**
   * The ban list after `ban_user`: an allowed call with a target adds exactly
   * that target, and nothing is ever removed.
   */
  function Banned(banned: set<string>, allowed: bool, target: Option<string>): (r: set<string>)
    ensures banned <= r
    ensures allowed && target.Some? ==> r - banned <= {target.value} && target.value in r
    ensures !(allowed && target.Some?) ==> r == banned
  {
    if allowed && target.Some? then banned + {target.value} else banned
  }

  /**
   * The ban list after `unban_user`: an allowed call with a target removes
   * exactly that target, and nothing is ever added.
   */
  function Unbanned(banned: set<string>, allowed: bool, target: Option<string>): (r: set<string>)
    ensures r <= banned
    ensures allowed && target.Some? ==> banned - r <= {target.value} && target.value !in r
    ensures !(allowed && target.Some?) ==> r == banned
  {
    if allowed && target.Some? then banned - {target.value} else banned
  }

  /**
   * `ban_user`: an authorised caller with a target adds it to the ban list;
   * every other call changes nothing. Games and statistics are untouched.
   */
  method BanUser(st: BotState, vip: VipStore, userId: int, username: Option<string>,
                 replyUserId: Option<int>, args: seq<string>)
    requires st.Valid()
    modifies st
    ensures st.Valid()
    ensures st.games == old(st.games) && st.chatStats == old(st.chatStats) && st.cancelledJobs == old(st.cancelledJobs)
    ensures st.bannedUsers == Banned(old(st.bannedUsers), Authorised(vip, userId, username), Target(replyUserId, args))
  {
    if !Authorised(vip, userId, username) {
      return;
    }
    var target := Target(replyUserId, args);
    if target.None? {
      return;
    }
    st.bannedUsers := st.bannedUsers + {target.value};
  }

  /**
   * `unban_user`: an authorised caller with a target removes it from the ban
   * list if it is there; every other call, and a target that was not banned,
   * changes nothing.
   */
  method UnbanUser(st: BotState, vip: VipStore, userId: int, username: Option<string>,
                   replyUserId: Option<int>, args: seq<string>)
    requires st.Valid()
    modifies st
    ensures st.Valid()
    ensures st.games == old(st.games) && st.chatStats == old(st.chatStats) && st.cancelledJobs == old(st.cancelledJobs)
    ensures st.bannedUsers == Unbanned(old(st.bannedUsers), Authorised(vip, userId, username), Target(replyUserId, args))
  {
    if !Authorised(vip, userId, username) {
      return;
    }
    var target := Target(replyUserId, args);
    if target.None? {
      return;
    }
    if target.value in st.bannedUsers {
      st.bannedUsers := st.bannedUsers - {target.value};
    }
  }

  /**
   * Banning the same target twice leaves the list as one ban does, and
   * unbanning a target that was not banned before undoes the ban.
   */
  lemma BanThenUnban(banned: set<string>, allowed: bool, target: Option<string>)
    ensures Banned(Banned(banned, allowed, target), allowed, target) == Banned(banned, allowed, target)
    ensures target.Some? && target.value !in banned ==>
              Unbanned(Banned(banned, allowed, target), allowed, target) == banned
  {
  }

  /**
   * A ban through a reply takes effect in the game handlers: the replied-to
   * user is refused from then on, whatever their username, and a ban list
   * holding only that id refuses no other id without a banned username.
   */
  lemma ReplyBanBlocksExactlyThatUser(banned: set<string>, bannedId: int, args: seq<string>,
                                      userId: int, username: Option<string>)
    ensures var after := Banned(banned, true, Target(Some(bannedId), args));
      IsBanned(after, bannedId, username)
    ensures IsBanned(Banned({}, true, Target(Some(bannedId), args)), userId, None) <==> userId == bannedId
  {
    Text.IntToStringInjective(userId, bannedId);
  }

  /** One line of the report's top list: name, wins and whether the name is a VIP name. */
  datatype TopLine = TopLine(name: string, wins: nat, vip: bool)

  /** The data `chat_stats_command` formats. */
  datatype Report = Report(chatId: int, games: nat, wins: nat, draws: nat, top: seq<TopLine>)

  /** Counts never increase along the sequence. */
  ghost predicate NonIncreasing(top: seq<(string, nat)>) {
    forall i, j :: 0 <= i < j < |top| ==> top[i].1 >= top[j].1
  }

  /** The entries of `top` with `wins` wins, in their order. */
  function WithWins(top: seq<(string, nat)>, wins: nat): (r: seq<(string, nat)>)
    ensures |r| <= |top|
  {
    if top == [] then []
    else (if top[0].1 == wins then [top[0]] else []) + WithWins(top[1..], wins)
  }

  /** Places `e` before the first entry with no more wins than it has. */
  function InsertByWins(e: (string, nat), top: seq<(string, nat)>): (r: seq<(string, nat)>)
    ensures |r| == |top| + 1
    ensures r[0] == e || (top != [] && r[0] == top[0])
  {
    if top == [] then [e]
    else if top[0].1 <= e.1 then [e] + top
    else [top[0]] + InsertByWins(e, top[1..])
  }

  /**
   * `sorted(top.items(), key=lambda x: -x[1])`: by non-increasing wins, and,
   * Python's sort being stable, entries with equal wins in insertion order.
   */
  function SortByWins(top: seq<(string, nat)>): (r: seq<(string, nat)>)
    ensures |r| == |top|
  {
    if top == [] then [] else InsertByWins(top[0], SortByWins(top[1..]))
  }

  lemma {:induction false} InsertByWinsAddsOne(e: (string, nat), top: seq<(string, nat)>)
    ensures multiset(InsertByWins(e, top)) == multiset(top) + multiset{e}
  {
    if top != [] && top[0].1 > e.1 {
      InsertByWinsAddsOne(e, top[1..]);
      assert top == [top[0]] + top[1..];
    }
  }

  /** The sort neither loses nor invents an entry. */
  lemma {:induction false} SortByWinsPermutes(top: seq<(string, nat)>)
    ensures multiset(SortByWins(top)) == multiset(top)
  {
    if top != [] {
      SortByWinsPermutes(top[1..]);
      InsertByWinsAddsOne(top[0], SortByWins(top[1..]));
      assert top == [top[0]] + top[1..];
    }
  }

  lemma {:induction false} InsertKeepsNonIncreasing(e: (string, nat), top: seq<(string, nat)>)
    requires NonIncreasing(top)
    ensures NonIncreasing(InsertByWins(e, top))
  {
    var r := InsertByWins(e, top);
    if top != [] && top[0].1 > e.1 {
      InsertKeepsNonIncreasing(e, top[1..]);
      var rest := InsertByWins(e, top[1..]);
      assert r == [top[0]] + rest;
      assert r[0].1 >= r[1].1;
      forall i, j | 0 <= i < j < |r| ensures r[i].1 >= r[j].1 {
        if i == 0 && j > 1 {
          assert r[1] == rest[0] && r[j] == rest[j - 1];
        } else if i > 0 {
          assert r[i] == rest[i - 1] && r[j] == rest[j - 1];
        }
      }
    } else if top != [] {
      assert r == [e] + top;
      forall i, j | 0 <= i < j < |r| ensures r[i].1 >= r[j].1 {
        if i > 0 {
          assert r[i] == top[i - 1] && r[j] == top[j - 1];
        } else {
          assert r[j] == top[j - 1];
        }
      }
    }
  }

  lemma WithWinsCons(x: (string, nat), top: seq<(string, nat)>, wins: nat)
    ensures WithWins([x] + top, wins) == (if x.1 == wins then [x] else []) + WithWins(top, wins)
  {
    assert ([x] + top)[1..] == top;
  }

  lemma {:induction false} InsertKeepsTies(e: (string, nat), top: seq<(string, nat)>, wins: nat)
    ensures WithWins(InsertByWins(e, top), wins) == (if e.1 == wins then [e] else []) + WithWins(top, wins)
  {
    if top == [] {
      WithWinsCons(e, [], wins);
    } else if top[0].1 > e.1 {
      var rest := InsertByWins(e, top[1..]);
      InsertKeepsTies(e, top[1..], wins);
      assert InsertByWins(e, top) == [top[0]] + rest;
      WithWinsCons(top[0], rest, wins);
      WithWinsCons(top[0], top[1..], wins);
      assert [top[0]] + top[1..] == top;
      if e.1 == wins {
        // `top[0]` has more wins than `e`, so it is not among them.
        assert WithWins(top, wins) == WithWins(top[1..], wins);
        assert WithWins([top[0]] + rest, wins) == WithWins(rest, wins);
      } else if top[0].1 == wins {
        assert WithWins(rest, wins) == WithWins(top[1..], wins);
      } else {
        assert WithWins(rest, wins) == WithWins(top[1..], wins);
        assert WithWins(top, wins) == WithWins(top[1..], wins);
      }
    } else {
      WithWinsCons(e, top, wins);
    }
  }

  /**
   * The sorted list is ordered by non-increasing wins and, for every win
   * count, lists the entries with that count in their original order: the
   * sort is stable.
   */
  lemma {:induction false} SortByWinsIsStable(top: seq<(string, nat)>)
    ensures NonIncreasing(SortByWins(top))
    ensures forall wins :: WithWins(SortByWins(top), wins) == WithWins(top, wins)
  {
    if top != [] {
      SortByWinsIsStable(top[1..]);
      InsertKeepsNonIncreasing(top[0], SortByWins(top[1..]));
      forall wins ensures WithWins(SortByWins(top), wins) == WithWins(top, wins) {
        InsertKeepsTies(top[0], SortByWins(top[1..]), wins);
      }
    }
  }

  /** The (name, wins) pairs of report lines. */
  function Entries(lines: seq<TopLine>): (r: seq<(string, nat)>)
    ensures |r| == |lines| && forall i :: 0 <= i < |lines| ==> r[i] == (lines[i].name, lines[i].wins)
  {
    seq(|lines|, i requires 0 <= i < |lines| => (lines[i].name, lines[i].wins))
  }

  /** The report's top list: the sorted entries, each with its VIP marker. */
  function TopLines(vipNames: set<string>, sorted: seq<(string, nat)>): (lines: seq<TopLine>)
    ensures |lines| == |sorted|
    ensures forall i :: 0 <= i < |sorted| ==>
              lines[i] == TopLine(sorted[i].0, sorted[i].1, sorted[i].0 in vipNames)
  {
    seq(|sorted|, i requires 0 <= i < |sorted| => TopLine(sorted[i].0, sorted[i].1, sorted[i].0 in vipNames))
  }

  /**
   * `chat_stats_command`: only the owner gets a report, and only for a chat
   * with statistics. The report carries the chat's three counters and its top
   * players by non-increasing wins, each marked when the name is a VIP name.
   * Nothing is changed.
   */
  method ChatStatsCommand(st: BotState, vip: VipStore, chatId: int, username: Option<string>)
    returns (report: Option<Report>)
    ensures report.Some? <==> username == Some(OwnerUsername) && chatId in st.chatStats
    ensures report.Some? ==>
      var s := st.chatStats[chatId];
      var r := report.value;
      && r.chatId == chatId && r.games == s.games && r.wins == s.wins && r.draws == s.draws
      && Entries(r.top) == SortByWins(s.topPlayers)
      && NonIncreasing(Entries(r.top))
      && multiset(Entries(r.top)) == multiset(s.topPlayers)
      && (forall i :: 0 <= i < |r.top| ==> (r.top[i].vip <==> vip.IsVipByUsername(r.top[i].name)))
  {
    if username != Some(OwnerUsername) || chatId !in st.chatStats {
      return None;
    }
    var s := st.chatStats[chatId];
    var sorted := SortByWins(s.topPlayers);
    SortByWinsIsStable(s.topPlayers);
    SortByWinsPermutes(s.topPlayers);
    var lines := TopLines(vip.vipUsernames, sorted);
    assert Entries(lines) == sorted;
    report := Some(Report(chatId, s.games, s.wins, s.draws, lines));
  }
}
