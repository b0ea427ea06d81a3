/** The leaderboard service (java/test_failure/.../service/LeaderboardService.java):
    a map from player id to player, a ranked list rebuilt lazily when a
    `ranksDirty` flag is set, and the queries over both. The map holds each
    player's state (`Players.Stats`); its `HashMap` order is the insertion
    order of the ids (see `Keys`); the clock is the caller's `now`, in
    seconds. */
module Leaderboard {
  import opened Wrappers
  import opened MachineInt
  import opened Keys
  import opened Sorting
  import opened Tiers
  import opened Players

  /** The players' states by id. */
  type Board = map<string, Stats>

  /** `updateScore` on a present player: `addScore`, then `updatePlayerTier`. */
  function ScoreUpdated(s: Stats, change: int, now: int): (r: Stats)
    ensures r == Scored(s, change, now).(tier := r.tier)
    ensures r.tier == TierAfterUpdate(r.score)
  {
    var t := Scored(s, change, now);
    t.(tier := TierAfterUpdate(t.score))
  }

  /** A new player who scores exactly 1000 stays BRONZE, although the tier
      table puts 1000 in SILVER. */
  lemma UpdatedTierAtBoundary(id: string, name: string, now: int)
    ensures ScoreUpdated(Joined(id, name, now), 1000, now).tier == Bronze
    ensures FromScore(1000) == Silver
  {
    FromScoreExamples();
  }

  /** The ranking key: `Long.compare(b.getScore(), a.getScore())` sorts by
      score descending, which is ascending by the negated score. */
  function Descending(scores: map<string, int>): string -> real {
    k => if k in scores then -(scores[k] as real) else 0.0
  }

  /** The ids in the order `updateRanksIfNeeded` sorts their players. */
  function RankOrder(ids: seq<string>, scores: map<string, int>): (r: seq<string>)
    ensures |r| == |ids|
  {
    SortBy(ids, Descending(scores))
  }

  /** The ranking lists every player once. */
  lemma RankOrderEnumerates(ids: seq<string>, scores: map<string, int>)
    requires Enumerates(ids, scores.Keys)
    ensures Enumerates(RankOrder(ids, scores), scores.Keys)
  {
    SortPermutes(ids, Descending(scores));
    Rearranged(ids, RankOrder(ids, scores), scores.Keys);
  }

  /** The ranking puts the best score first. */
  lemma RankOrderDescending(ids: seq<string>, scores: map<string, int>)
    requires Enumerates(ids, scores.Keys)
    ensures var r := RankOrder(ids, scores);
      forall i, j :: 0 <= i < j < |r| ==> r[i] in scores && r[j] in scores && scores[r[i]] >= scores[r[j]]
  {
    var key := Descending(scores);
    SortSorted(ids, key);
    RankOrderEnumerates(ids, scores);
    var r := RankOrder(ids, scores);
    forall i, j | 0 <= i < j < |r| ensures scores[r[i]] >= scores[r[j]] {
      assert key(r[i]) <= key(r[j]);
    }
  }

  /** Players with equal scores keep their map order (`List.sort` is stable). */
  lemma RankOrderStable(ids: seq<string>, scores: map<string, int>, k: real)
    ensures WithKey(RankOrder(ids, scores), Descending(scores), k) == WithKey(ids, Descending(scores), k)
  {
    SortStable(ids, Descending(scores), k);
  }

  /** Where `id` stands in `order`. */
  function IndexOf(order: seq<string>, id: string): (i: nat)
    requires id in order
    ensures i < |order| && order[i] == id
  {
    if order[0] == id then 0 else 1 + IndexOf(order[1..], id)
  }

  /** How many players `getTopPlayers(n)` returns from `size` ranked ones:
      `limit(n - 1)`, which raises IllegalArgumentException for a negative
      limit. */
  function TopCount(n: int, size: nat): (r: Result<nat, string>)
    requires IsInt(n)
    ensures r.Ok? ==> r.value <= size
  {
    var limit := WrapInt(n - 1);
    if limit < 0 then Err("IllegalArgumentException")
    else Ok(if limit < size then limit else size)
  }

  /** Asking for the top n of at least n players gives n - 1 of them, and
      asking for the top 0 raises. */
  lemma TopCountOneShort(n: int, size: nat)
    requires 1 <= n <= size && IsInt(n)
    ensures TopCount(n, size) == Ok(n - 1)
    ensures TopCount(0, size).Err?
  {
  }

  /** The count the tests expect: `limit(n)`. */
  function CorrectedTopCount(n: int, size: nat): (r: Result<nat, string>)
    ensures r.Ok? <==> 0 <= n
    ensures r.Ok? ==> r.value <= size && (n <= size ==> r.value == n)
  {
    if n < 0 then Err("IllegalArgumentException")
    else Ok(if n < size then n else size)
  }

  /** `rankedPlayers.subList(playerIndex - range, min(playerIndex + range + 1, size))`.
      `ArrayList.subList` first raises IndexOutOfBoundsException for a
      negative start (the end never passes the size here), then
      IllegalArgumentException for a start past the end. */
  function Window<T>(s: seq<T>, index: nat, range: int): (r: Result<seq<T>, string>)
    requires index < |s| <= IntMax && IsInt(range)
    ensures r.Ok? ==> |r.value| <= |s|
  {
    var start := WrapInt(index - range);
    var upper := WrapInt(index + range + 1);
    var end := if upper < |s| then upper else |s|;
    if start < 0 then Err("IndexOutOfBoundsException")
    else if end < start then Err("IllegalArgumentException")
    else Ok(s[start..end])
  }

  /** The window raises IndexOutOfBoundsException for a player nearer the
      top than `range`, and IllegalArgumentException for a negative range
      whose start does not wrap; otherwise it is centred on the player. */
  lemma WindowAsWritten<T>(s: seq<T>, index: nat, range: int)
    requires index < |s| <= IntMax && IsInt(range) && IsInt(index + range + 1)
    ensures 0 <= range && index < range ==> Window(s, index, range) == Err("IndexOutOfBoundsException")
    ensures range < 0 && IsInt(index - range) ==> Window(s, index, range) == Err("IllegalArgumentException")
    ensures range < 0 && !IsInt(index - range) ==> Window(s, index, range) == Err("IndexOutOfBoundsException")
    ensures 0 <= range <= index ==>
      Window(s, index, range).Ok? && s[index] in Window(s, index, range).value
  {
    if 0 <= range <= index {
      var end := if index + range + 1 < |s| then index + range + 1 else |s|;
      assert s[index] == s[index - range..end][range];
    }
  }

  /** The window the tests expect: clipped to the list at both ends, so it
      never raises and always holds the player. */
  function ClippedWindow<T>(s: seq<T>, index: nat, range: nat): (r: seq<T>)
    requires index < |s|
    ensures s[index] in r && |r| <= 2 * range + 1
    ensures r <= s[(if index < range then 0 else index - range)..]
  {
    var start := if index < range then 0 else index - range;
    var end := if index + range + 1 < |s| then index + range + 1 else |s|;
    assert s[index] == s[start..end][index - start];
    s[start..end]
  }

  /** `getWinRate` on a present player: `wins / gamesPlayed * 100` in `int`
      arithmetic, which truncates, and raises ArithmeticException when no
      game was played. */
  function WinRate(wins: int, games: int): (r: Result<real, string>)
    ensures r.Err? <==> games == 0
  {
    if games == 0 then Err("ArithmeticException: / by zero")
    else Ok(WrapInt(WrapInt(Quot(wins, games)) * 100) as real)
  }

  /** Truncation makes every record short of all wins a win rate of 0:
      two wins in three games give 0, not 66.67. */
  lemma WinRateTruncates(wins: int, games: int)
    requires 0 <= wins < games
    ensures WinRate(wins, games) == Ok(0.0)
  {
    QuotSmall(wins, games);
  }

  /** The test's new player who wins, loses and wins again has played 3
      games with 2 wins, and the board reports a win rate of 0 for them. */
  lemma RecordedGamesWinRate(s: Stats, now: int)
    requires s.gamesPlayed == 0 && s.wins == 0
    ensures var r := Played(Played(Played(s, true, now), false, now), true, now);
      r.gamesPlayed == 3 && r.wins == 2 && WinRate(r.wins, r.gamesPlayed) == Ok(0.0)
  {
    var r := Played(Played(Played(s, true, now), false, now), true, now);
    assert r.gamesPlayed == 3 && r.wins == 2;
    WinRateTruncates(2, 3);
  }

  /** The win rate the tests expect: the exact share of wins in percent,
      and 0 for a player with no games. */
  function TrueWinRate(wins: int, games: int): (r: real)
    ensures games == 0 ==> r == 0.0
    ensures games != 0 ==> r * (games as real) == (wins as real) * 100.0
  {
    if games == 0 then 0.0 else (wins as real) / (games as real) * 100.0
  }

  lemma TrueWinRateBounds(wins: int, games: int)
    requires 0 <= wins <= games
    ensures 0.0 <= TrueWinRate(wins, games) <= 100.0
    ensures wins == 2 && games == 3 ==> 60.0 < TrueWinRate(wins, games) < 70.0
  {
    if games > 0 {
      var q := (wins as real) / (games as real);
      assert q * (games as real) == wins as real;
      assert 0.0 <= q <= 1.0;
    }
  }

  /** `findPlayersInScoreRange`'s test: both bounds are excluded. */
  predicate InScoreRange(score: int, minScore: int, maxScore: int) {
    minScore < score < maxScore
  }

  /** The range the tests expect, with both bounds included. */
  predicate InScoreRangeInclusive(score: int, minScore: int, maxScore: int) {
    minScore <= score <= maxScore
  }

  /** The two ranges differ exactly at the bounds: a score of 100 or 200
      is outside (100, 200) as written. */
  lemma ScoreRangeBounds(score: int, minScore: int, maxScore: int)
    ensures InScoreRangeInclusive(score, minScore, maxScore)
      <==> InScoreRange(score, minScore, maxScore) || (minScore <= maxScore && score in {minScore, maxScore})
    ensures !InScoreRange(100, 100, 200) && !InScoreRange(200, 100, 200) && InScoreRange(150, 100, 200)
  {
  }

  /** With the bounds included, the test's scores 100, 150 and 200 all lie
      in the range from 100 to 200. */
  lemma InclusiveRangeExample()
    ensures InScoreRangeInclusive(100, 100, 200) && InScoreRangeInclusive(150, 100, 200)
    ensures InScoreRangeInclusive(200, 100, 200)
    ensures !InScoreRangeInclusive(99, 100, 200) && !InScoreRangeInclusive(201, 100, 200)
  {
  }

  /** `mergePlayers` on the primary: the secondary's score replaces its
      own, and games and wins become the larger of the two. */
  function Merged(primary: Stats, secondary: Stats): (r: Stats)
    ensures r == primary.(score := r.score, gamesPlayed := r.gamesPlayed, wins := r.wins)
    ensures r.score == secondary.score
    ensures r.gamesPlayed >= primary.gamesPlayed && r.gamesPlayed >= secondary.gamesPlayed
    ensures r.gamesPlayed in {primary.gamesPlayed, secondary.gamesPlayed}
    ensures r.wins >= primary.wins && r.wins >= secondary.wins && r.wins in {primary.wins, secondary.wins}
  {
    primary.(
      score := secondary.score,
      gamesPlayed := if primary.gamesPlayed >= secondary.gamesPlayed then primary.gamesPlayed else secondary.gamesPlayed,
      wins := if primary.wins >= secondary.wins then primary.wins else secondary.wins)
  }

  /** The merged account combines all its statistics, as the tests expect. */
  function MergedBySum(primary: Stats, secondary: Stats): (r: Stats)
    ensures r == primary.(score := r.score, gamesPlayed := r.gamesPlayed, wins := r.wins)
    ensures IsLong(primary.score + secondary.score) ==> r.score == primary.score + secondary.score
    ensures IsInt(primary.gamesPlayed + secondary.gamesPlayed) ==> r.gamesPlayed == primary.gamesPlayed + secondary.gamesPlayed
    ensures IsInt(primary.wins + secondary.wins) ==> r.wins == primary.wins + secondary.wins
  {
    primary.(
      score := WrapLong(primary.score + secondary.score),
      gamesPlayed := WrapInt(primary.gamesPlayed + secondary.gamesPlayed),
      wins := WrapInt(primary.wins + secondary.wins))
  }

  /** The test's accounts, 1000 points with 5 of 10 games won and 500
      points with 15 of 20: merged as written they keep 500 points, 20
      games and 15 wins; summed they have 1500, 30 and 20. */
  lemma MergeExample(p: Stats, s: Stats)
    requires p.score == 1000 && p.gamesPlayed == 10 && p.wins == 5
    requires s.score == 500 && s.gamesPlayed == 20 && s.wins == 15
    ensures var m := Merged(p, s); m.score == 500 && m.gamesPlayed == 20 && m.wins == 15
    ensures var m := MergedBySum(p, s); m.score == 1500 && m.gamesPlayed == 30 && m.wins == 20
  {
  }

  /** Every player's score. */
  function ScoresOf(board: Board): (m: map<string, int>)
    ensures m.Keys == board.Keys
    ensures forall k :: k in board ==> m[k] == board[k].score
  {
    map k | k in board :: board[k].score
  }

  /** Each player of `order` holds its 0-based place in it as its rank. */
  ghost predicate RanksHold(board: Board, order: seq<string>) {
    forall i :: 0 <= i < |order| ==> order[i] in board && board[order[i]].rank == i
  }

  /** The players after ranking: each rank is the place in `order`, and
      nothing else changes. */
  function Reranked(board: Board, order: seq<string>): (r: Board)
    ensures r.Keys == board.Keys
  {
    map k | k in board :: board[k].(rank := if k in order then IndexOf(order, k) else board[k].rank)
  }

  /** A ranked board keeps what `Valid` asks of the service with its ranks
      clean: the ids, the keys and the ranking all agree. */
  lemma RerankedValid(board: Board, ids: seq<string>)
    requires Enumerates(ids, board.Keys) && forall k :: k in board ==> board[k].id == k
    ensures var order := RankOrder(ids, ScoresOf(board));
      && Enumerates(order, board.Keys)
      && (RanksHold(board, order) ==> Reranked(board, order) == board)
      && var b := Reranked(board, order);
      && Enumerates(ids, b.Keys) && (forall k :: k in b ==> b[k].id == k)
      && order == RankOrder(ids, ScoresOf(b)) && RanksHold(b, order)
  {
    var order := RankOrder(ids, ScoresOf(board));
    RankOrderEnumerates(ids, ScoresOf(board));
    RerankedSpec(board, order);
    var b := Reranked(board, order);
    forall k | k in b ensures b[k].id == k {
      assert b[k] == board[k].(rank := b[k].rank);
    }
  }

  /** The first `count` players of a ranking that puts the best score
      first, with every player holding its place as its rank, hold ranks
      0, 1, ... and come best first. */
  lemma TopValues(board: Board, order: seq<string>, count: nat)
    requires RanksHold(board, order) && count <= |order|
    requires forall i, j :: 0 <= i < j < |order| ==> board[order[i]].score >= board[order[j]].score
    ensures var v := ValuesAt(order[..count], board);
      && (forall i :: 0 <= i < |v| ==> v[i].rank == i)
      && (forall i, j :: 0 <= i < j < |v| ==> v[i].score >= v[j].score)
  {
    var top := order[..count];
    assert forall i :: 0 <= i < |top| ==> top[i] == order[i];
    var v := ValuesAt(top, board);
    forall i | 0 <= i < |v| ensures v[i].rank == i {
      assert v[i] == board[order[i]];
    }
    forall i, j | 0 <= i < j < |v| ensures v[i].score >= v[j].score {
      assert v[i] == board[order[i]] && v[j] == board[order[j]];
    }
  }

  /** Removing one player keeps the ids listing the players once each, and
      every player stored under its own id. */
  lemma RemovalKeeps(ks: seq<string>, board: Board, id: string)
    requires Enumerates(ks, board.Keys) && forall k :: k in board ==> board[k].id == k
    ensures Enumerates(Remove(ks, id), (board - {id}).Keys)
    ensures forall k :: k in board - {id} ==> (board - {id})[k].id == k
  {
    RemoveEnumerates(ks, board.Keys, id);
    assert (board - {id}).Keys == board.Keys - {id};
  }

  /** Once a player is gone, a ranking that still lists it no longer
      matches the board. */
  lemma StaleRanking(ids: seq<string>, board: Board, id: string)
    requires Enumerates(ids, board.Keys) && id in board
    ensures !RanksHold(board - {id}, RankOrder(ids, ScoresOf(board)))
  {
    var order := RankOrder(ids, ScoresOf(board));
    RankOrderEnumerates(ids, ScoresOf(board));
    var j :| 0 <= j < |order| && order[j] == id;
    assert order[j] !in board - {id};
  }

  /** Ranking keeps the scores, gives every player its place, and changes
      nothing when every player already holds its place. */
  lemma RerankedSpec(board: Board, order: seq<string>)
    requires Enumerates(order, board.Keys)
    ensures ScoresOf(Reranked(board, order)) == ScoresOf(board)
    ensures RanksHold(Reranked(board, order), order)
    ensures RanksHold(board, order) ==> Reranked(board, order) == board
  {
    var r := Reranked(board, order);
    forall i | 0 <= i < |order| ensures order[i] in r && r[order[i]].rank == i {
      var j := IndexOf(order, order[i]);
      assert order[j] == order[i];
    }
    if RanksHold(board, order) {
      forall k | k in board ensures r[k] == board[k] {
        var j := IndexOf(order, k);
        assert board[order[j]].rank == j;
      }
    }
  }

  function Min(a: int, b: int): int { if a < b then a else b }

  /** The players after `updateScore(id, bonus)` for every id of `top`. */
  function Bonused(board: Board, top: seq<string>, bonus: int, now: int): (r: Board)
    ensures r.Keys == board.Keys
    ensures forall k :: k in board ==> r[k] == if k in top then ScoreUpdated(board[k], bonus, now) else board[k]
  {
    map k | k in board :: if k in top then ScoreUpdated(board[k], bonus, now) else board[k]
  }

  /** One more bonus: the next id of a list of distinct ids adds its own
      update to those before it. */
  lemma BonusedStep(board: Board, top: seq<string>, i: nat, bonus: int, now: int)
    requires Distinct(top) && i < |top| && top[i] in board
    ensures Bonused(board, top[..i + 1], bonus, now)
      == Bonused(board, top[..i], bonus, now)[top[i] := ScoreUpdated(board[top[i]], bonus, now)]
  {
    var id := top[i];
    assert top[..i + 1] == top[..i] + [id];
    assert id !in top[..i] by {
      forall j | 0 <= j < i ensures top[..i][j] != id {
        assert top[..i][j] == top[j];
      }
    }
  }

  /** A prefix of an enumeration lists distinct keys of the set. */
  lemma EnumeratesPrefix(order: seq<string>, keys: set<string>, m: nat)
    requires Enumerates(order, keys) && m <= |order|
    ensures Distinct(order[..m])
    ensures forall i :: 0 <= i < m ==> order[..m][i] in keys
  {
    forall i, j | 0 <= i < j < m ensures order[..m][i] != order[..m][j] {
      assert order[..m][i] == order[i] && order[..m][j] == order[j];
    }
  }

  /** `getPercentile`'s arithmetic: `rank / count * 100` for a rank below
      the count. */
  function Percentile(rank: nat, count: nat): (p: real)
    requires rank < count
    ensures 0.0 <= p < 100.0
    ensures p * (count as real) == (rank as real) * 100.0
    ensures rank == 0 <==> p == 0.0
  {
    var part := rank as real;
    var whole := count as real;
    assert (part / whole) * whole == part;
    part / whole * 100.0
  }

  /** The loop of `updateRanksIfNeeded`: each ranked player in turn gets its
      place as its rank. */
  method AssignRanks(board: Board, order: seq<string>) returns (r: Board)
    requires Enumerates(order, board.Keys)
    ensures r == Reranked(board, order)
  {
    r := board;
    for i := 0 to |order|
      invariant r.Keys == board.Keys
      invariant forall j :: 0 <= j < |order| ==>
        r[order[j]] == board[order[j]].(rank := if j < i then j else board[order[j]].rank)
    {
      r := r[order[i] := r[order[i]].(rank := i)];
    }
    forall k | k in r ensures r[k] == Reranked(board, order)[k] {
      var j := IndexOf(order, k);
    }
  }

  /** `INACTIVE_THRESHOLD`: 30 days, in seconds of the clock. */
  const InactiveThreshold := 30 * 24 * 60 * 60

  /** `getLastActive().isBefore(cutoff)` with the cutoff 30 days before `now`. */
  predicate Inactive(s: Stats, now: int) {
    s.lastActive < now - InactiveThreshold
  }

  /** The place of the first inactive player along `ks`, or `|ks|` when
      every one is active. */
  function FirstInactive(ks: seq<string>, board: Board, now: int): (i: nat)
    requires forall j :: 0 <= j < |ks| ==> ks[j] in board
    ensures i <= |ks|
    ensures forall j :: 0 <= j < i ==> !Inactive(board[ks[j]], now)
    ensures i < |ks| ==> Inactive(board[ks[i]], now)
  {
    if ks == [] then 0
    else if Inactive(board[ks[0]], now) then 0
    else 1 + FirstInactive(ks[1..], board, now)
  }

  /** A board whose first two players are both inactive: the loop of
      `removeInactivePlayers` removes the first and then raises. */
  lemma TwoInactiveRaise(ks: seq<string>, board: Board, now: int)
    requires forall j :: 0 <= j < |ks| ==> ks[j] in board
    requires 2 <= |ks| && Inactive(board[ks[0]], now) && Inactive(board[ks[1]], now)
    ensures FirstInactive(ks, board, now) == 0 < |ks| - 1
  {
  }

  /** The players active at `now`, as `removeIf` with the cutoff leaves them. */
  function ActivePlayers(board: Board, now: int): (r: Board)
    ensures forall k :: k in r <==> k in board && !Inactive(board[k], now)
    ensures forall k :: k in r ==> r[k] == board[k]
  {
    map k | k in board && !Inactive(board[k], now) :: board[k]
  }

  /** The test `removeIf` keeps a player by. */
  function Kept(board: Board, now: int): string -> bool {
    k => k in board && !Inactive(board[k], now)
  }

  /** The ids of the active players, in their order. */
  function ActiveIds(ks: seq<string>, board: Board, now: int): (r: seq<string>)
    ensures forall k :: k in r <==> k in ks && k in board && !Inactive(board[k], now)
  {
    Where(ks, Kept(board, now))
  }

  /** The active ids list the active players once each, and as many fewer
      than before as players were dropped. */
  lemma ActiveEnumerates(ks: seq<string>, board: Board, now: int)
    requires Enumerates(ks, board.Keys)
    ensures Enumerates(ActiveIds(ks, board, now), ActivePlayers(board, now).Keys)
    ensures |board.Keys - ActivePlayers(board, now).Keys| == |ks| - |ActiveIds(ks, board, now)|
  {
    var active := ActivePlayers(board, now);
    var keep := Kept(board, now);
    WhereEnumerates(ks, board.Keys, keep, active.Keys);
    DroppedCount(ks, board.Keys, ActiveIds(ks, board, now), active.Keys);
  }

  /** Listings of a key set and of a subset of it differ in length by the
      number of keys left out. */
  lemma DroppedCount(ks: seq<string>, keys: set<string>, rs: seq<string>, kept: set<string>)
    requires Enumerates(ks, keys) && Enumerates(rs, kept) && kept <= keys
    ensures |keys - kept| == |ks| - |rs|
  {
    EnumeratesSize(ks, keys);
    EnumeratesSize(rs, kept);
    assert keys == (keys - kept) + kept;
  }

  class LeaderboardService {
    /** The ids of `players`, in the map's iteration order. */
    var ids: seq<string>
    var players: map<string, Stats>
    /** `rankedPlayers`, by id. */
    var ranked: seq<string>
    var ranksDirty: bool

    ghost predicate Valid()
      reads this
    {
      && Enumerates(ids, players.Keys)
      && (forall k :: k in players ==> players[k].id == k)
      && (!ranksDirty ==> ranked == RankOrder(ids, ScoresOf(players)) && RanksHold(players, ranked))
    }

    constructor()
      ensures Valid() && ids == [] && players == map[] && ranked == [] && ranksDirty
    {
      ids := [];
      players := map[];
      ranked := [];
      ranksDirty := true;
    }

    /** `addPlayer`: a new BRONZE player with no score under `id`, replacing
        any player that had that id. */
    method AddPlayer(id: string, username: string, now: int) returns (player: Stats)
      requires Valid()
      modifies this
      ensures Valid() && player == Joined(id, username, now)
      ensures players == old(players)[id := player] && ids == Put(old(ids), id)
      ensures ranked == old(ranked) && ranksDirty
    {
      player := Joined(id, username, now);
      PutEnumerates(ids, players.Keys, id);
      players := players[id := player];
      ids := Put(ids, id);
      ranksDirty := true;
    }

    /** `updateScore`: `addScore` and `updatePlayerTier` on a present player;
        an unknown id changes nothing. */
    method UpdateScore(playerId: string, scoreChange: int, now: int)
      requires Valid()
      modifies this
      ensures Valid() && ids == old(ids) && ranked == old(ranked)
      ensures playerId in old(players) ==>
        && players == old(players)[playerId := ScoreUpdated(old(players)[playerId], scoreChange, now)]
        && ranksDirty
      ensures playerId !in old(players) ==> players == old(players) && ranksDirty == old(ranksDirty)
    {
      if playerId in players {
        players := players[playerId := ScoreUpdated(players[playerId], scoreChange, now)];
        ranksDirty := true;
      }
    }

    /** `recordGame` called on the player object that `addPlayer` or
        `getPlayer` handed out, which is the board's own: one more game,
        and one more win when it was won. The score, the rank and the
        ranking flag stay as they were; an unknown id changes nothing. */
    method RecordGame(playerId: string, won: bool, now: int)
      requires Valid()
      modifies this
      ensures Valid() && ids == old(ids) && ranked == old(ranked) && ranksDirty == old(ranksDirty)
      ensures playerId in old(players) ==> players == old(players)[playerId := Played(old(players)[playerId], won, now)]
      ensures playerId !in old(players) ==> players == old(players)
    {
      if playerId in players {
        var before := players;
        players := players[playerId := Played(players[playerId], won, now)];
        assert ScoresOf(players) == ScoresOf(before);
      }
    }

    /** `setGamesPlayed` on the board's own player object. */
    method SetGamesPlayed(playerId: string, games: int)
      requires Valid() && IsInt(games)
      modifies this
      ensures Valid() && ids == old(ids) && ranked == old(ranked) && ranksDirty == old(ranksDirty)
      ensures playerId in old(players) ==> players == old(players)[playerId := old(players)[playerId].(gamesPlayed := games)]
      ensures playerId !in old(players) ==> players == old(players)
    {
      if playerId in players {
        var before := players;
        players := players[playerId := players[playerId].(gamesPlayed := games)];
        assert ScoresOf(players) == ScoresOf(before);
      }
    }

    /** `setWins` on the board's own player object. */
    method SetWins(playerId: string, wins: int)
      requires Valid() && IsInt(wins)
      modifies this
      ensures Valid() && ids == old(ids) && ranked == old(ranked) && ranksDirty == old(ranksDirty)
      ensures playerId in old(players) ==> players == old(players)[playerId := old(players)[playerId].(wins := wins)]
      ensures playerId !in old(players) ==> players == old(players)
    {
      if playerId in players {
        var before := players;
        players := players[playerId := players[playerId].(wins := wins)];
        assert ScoresOf(players) == ScoresOf(before);
      }
    }

    /** `updateRanksIfNeeded`: when the flag is set, sorts the players by
        score and gives each its 0-based place; only the ranks change. */
    method UpdateRanksIfNeeded()
      requires Valid()
      modifies this
      ensures Valid() && !ranksDirty && ids == old(ids)
      ensures ranked == RankOrder(ids, ScoresOf(old(players)))
      ensures players == Reranked(old(players), ranked)
    {
      var board, listed := players, ids;
      var order := RankOrder(listed, ScoresOf(board));
      RerankedValid(board, listed);
      if !ranksDirty {
        return;
      }
      var next := AssignRanks(board, order);
      ranked, players, ranksDirty := order, next, false;
    }

    /** `getTopPlayers(n)`: the first `n - 1` ranked players, best first,
        each holding its place as its rank. */
    method GetTopPlayers(n: int) returns (r: Result<seq<Stats>, string>)
      requires Valid() && IsInt(n)
      modifies this
      ensures Valid() && !ranksDirty && ids == old(ids)
      ensures ranked == RankOrder(ids, ScoresOf(old(players))) && players == Reranked(old(players), ranked)
      ensures r.Err? <==> TopCount(n, |ids|).Err?
      ensures r.Ok? ==> r.value == ValuesAt(ranked[..TopCount(n, |ids|).value], players)
      ensures r.Ok? ==> forall i :: 0 <= i < |r.value| ==> r.value[i].rank == i
      ensures r.Ok? ==> forall i, j :: 0 <= i < j < |r.value| ==> r.value[i].score >= r.value[j].score
    {
      UpdateRanksIfNeeded();
      var count := TopCount(n, |ranked|);
      if count.Err? {
        return Err(count.error);
      }
      RankOrderDescending(ids, ScoresOf(players));
      TopValues(players, ranked, count.value);
      r := Ok(ValuesAt(ranked[..count.value], players));
    }

    /** `getPlayersAround`: the ranked players within `range` places of the
        given one; an unknown id gives an empty list. */
    method GetPlayersAround(playerId: string, range: int) returns (r: Result<seq<Stats>, string>)
      requires Valid() && IsInt(range) && |ids| <= IntMax
      modifies this
      ensures Valid() && !ranksDirty && ids == old(ids)
      ensures ranked == RankOrder(ids, ScoresOf(old(players))) && players == Reranked(old(players), ranked)
      ensures playerId !in players ==> r == Ok([])
      ensures playerId in players ==>
        && playerId in ranked
        && r == Window(ValuesAt(ranked, players), IndexOf(ranked, playerId), range)
    {
      UpdateRanksIfNeeded();
      if playerId !in players {
        return Ok([]);
      }
      RankOrderEnumerates(ids, ScoresOf(players));
      var index := IndexOf(ranked, playerId);
      r := Window(ValuesAt(ranked, players), index, range);
    }

    /** `getWinRate`: 0 for an unknown id; raises for a player with no games. */
    function GetWinRate(playerId: string): (r: Result<real, string>)
      reads this
      ensures r.Err? <==> playerId in players && players[playerId].gamesPlayed == 0
      ensures playerId !in players ==> r == Ok(0.0)
    {
      if playerId !in players then Ok(0.0)
      else WinRate(players[playerId].wins, players[playerId].gamesPlayed)
    }

    /** `getPlayersByTier`: the players of the named tier, in map order; a
        name that is not exactly a tier constant raises. */
    function GetPlayersByTier(tierName: string): (r: Result<seq<Stats>, string>)
      reads this
      requires Valid()
      ensures r.Err? <==> ValueOf(tierName).None?
      ensures r.Ok? ==> forall i :: 0 <= i < |r.value| ==>
        r.value[i] in players.Values && r.value[i].tier == ValueOf(tierName).value
      ensures r.Ok? ==> forall k :: k in players && players[k].tier == ValueOf(tierName).value ==> players[k] in r.value
    {
      match ValueOf(tierName)
      case None => Err("IllegalArgumentException")
      case Some(tier) =>
        var board := players;
        var chosen := Where(ids, k => k in board && board[k].tier == tier);
        assert forall i :: 0 <= i < |chosen| ==> chosen[i] in chosen;
        var found := ValuesAt(chosen, players);
        assert forall k :: k in players && players[k].tier == tier ==> players[k] in found by {
          forall k | k in players && players[k].tier == tier ensures players[k] in found {
            var i :| 0 <= i < |chosen| && chosen[i] == k;
            assert found[i] == players[k];
          }
        }
        Ok(found)
    }

    /** `getPercentile`: a present player's 0-based rank as a percentage of
        the number of players, so the top player gets 0; 0 for an unknown id. */
    method GetPercentile(playerId: string) returns (r: real)
      requires Valid()
      modifies this
      ensures Valid() && !ranksDirty && ids == old(ids)
      ensures ranked == RankOrder(ids, ScoresOf(old(players))) && players == Reranked(old(players), ranked)
      ensures playerId !in players ==> r == 0.0
      ensures playerId in players ==>
        && playerId in ranked
        && r == Percentile(IndexOf(ranked, playerId), |ranked|)
      ensures playerId in players && ranked[0] == playerId ==> r == 0.0
    {
      UpdateRanksIfNeeded();
      if playerId !in players {
        return 0.0;
      }
      RankOrderEnumerates(ids, ScoresOf(players));
      var index := IndexOf(ranked, playerId);
      var rank := players[playerId].rank;
      assert rank == index;
      r := Percentile(rank, |ranked|);
    }

    /** `findPlayersInScoreRange`: the players whose score lies strictly
        between the bounds, in map order. */
    function FindPlayersInScoreRange(minScore: int, maxScore: int): (r: seq<Stats>)
      reads this
      requires Valid()
      ensures forall i :: 0 <= i < |r| ==> r[i] in players.Values && InScoreRange(r[i].score, minScore, maxScore)
      ensures forall k :: k in players && InScoreRange(players[k].score, minScore, maxScore) ==> players[k] in r
    {
      var board := players;
      var chosen := Where(ids, k => k in board && InScoreRange(board[k].score, minScore, maxScore));
      assert forall i :: 0 <= i < |chosen| ==> chosen[i] in chosen;
      var found := ValuesAt(chosen, players);
      assert forall k :: k in players && InScoreRange(players[k].score, minScore, maxScore) ==> players[k] in found by {
        forall k | k in players && InScoreRange(players[k].score, minScore, maxScore) ensures players[k] in found {
          var i :| 0 <= i < |chosen| && chosen[i] == k;
          assert found[i] == players[k];
        }
      }
      found
    }

    /** `mergePlayers`: None unless both ids are present; otherwise the
        primary takes the secondary's score and the larger games and wins,
        and the secondary is removed (the primary too, when the ids are
        the same). */
    method MergePlayers(primaryId: string, secondaryId: string) returns (r: Option<Stats>)
      requires Valid()
      modifies this
      ensures Valid() && ranked == old(ranked)
      ensures !(primaryId in old(players) && secondaryId in old(players)) ==>
        r == None && players == old(players) && ids == old(ids) && ranksDirty == old(ranksDirty)
      ensures primaryId in old(players) && secondaryId in old(players) ==>
        var merged := Merged(old(players)[primaryId], old(players)[secondaryId]);
        && r == Some(merged)
        && players == old(players)[primaryId := merged] - {secondaryId}
        && ids == Remove(old(ids), secondaryId)
        && ranksDirty
    {
      if primaryId !in players || secondaryId !in players {
        return None;
      }
      var merged := Merged(players[primaryId], players[secondaryId]);
      assert players[primaryId := merged].Keys == players.Keys;
      RemoveEnumerates(ids, players.Keys, secondaryId);
      players := players[primaryId := merged] - {secondaryId};
      ids := Remove(ids, secondaryId);
      ranksDirty := true;
      return Some(merged);
    }

    /** `removeInactivePlayers` as written: it removes entries from the map
        while a for-each loop iterates over its values, so the iterator's
        next step raises `ConcurrentModificationException` as soon as a
        player follows a removed one. Only the first inactive player is
        removed; the count is returned, and the ranks marked dirty, only
        when that player was the last one. When the ranks were clean before
        the exception, the ranked list still names the removed player. */
    method RemoveInactivePlayers(now: int) returns (r: Result<int, string>)
      requires Valid()
      modifies this
      ensures var i := FirstInactive(old(ids), old(players), now);
        && (i == |old(ids)| ==> r == Ok(0) && players == old(players) && ids == old(ids))
        && (i < |old(ids)| ==>
              players == old(players) - {old(ids)[i]} && ids == Remove(old(ids), old(ids)[i]))
        && (i == |old(ids)| - 1 ==> r == Ok(1))
        && (i < |old(ids)| - 1 ==> r == Err("ConcurrentModificationException"))
      ensures ranked == old(ranked)
      ensures r.Ok? ==> ranksDirty && Valid()
      ensures r.Err? ==> ranksDirty == old(ranksDirty) && (old(ranksDirty) ==> Valid())
      ensures r.Err? && !old(ranksDirty) ==> !RanksHold(players, ranked)
    {
      var cutoff := now - InactiveThreshold;
      var order, board := ids, players;
      ghost var first := FirstInactive(order, board, now);
      var removed := 0;
      var i := 0;
      while i < |order|
        invariant 0 <= i <= |order| && (removed == 0 || removed == 1)
        invariant ranked == old(ranked) && ranksDirty == old(ranksDirty)
        invariant removed == 0 ==> i <= first && players == board && ids == order
        invariant removed == 1 ==>
          && i == |order| && first == |order| - 1
          && players == board - {order[first]} && ids == Remove(order, order[first])
      {
        var player := players[order[i]];
        if player.lastActive < cutoff {
          players := players - {player.id};
          ids := Remove(ids, player.id);
          removed := removed + 1;
          if i + 1 < |order| {
            RemovalKeeps(order, board, order[i]);
            if !ranksDirty {
              StaleRanking(order, board, order[i]);
            }
            return Err("ConcurrentModificationException");
          }
        }
        i := i + 1;
      }
      if removed == 1 {
        RemovalKeeps(order, board, order[first]);
      }
      ranksDirty := true;
      r := Ok(removed);
    }

    /** `removeInactivePlayers` as it is evidently meant, removing through
        the collection (`values().removeIf`): every inactive player goes,
        the rest keep their order, and the count of removed players is
        returned. */
    method RemoveInactiveSafely(now: int) returns (removed: int)
      requires Valid()
      modifies this
      ensures Valid() && ranksDirty && ranked == old(ranked)
      ensures players == ActivePlayers(old(players), now)
      ensures ids == ActiveIds(old(ids), old(players), now)
      ensures removed == |old(ids)| - |ids| && 0 <= removed
      ensures removed == |old(players).Keys - players.Keys|
    {
      var board, listed := players, ids;
      ActiveEnumerates(listed, board, now);
      var kept := ActiveIds(listed, board, now);
      var active := ActivePlayers(board, now);
      assert forall k :: k in active ==> active[k] == board[k];
      removed := |listed| - |kept|;
      players, ids, ranksDirty := active, kept, true;
    }

    /** `awardBonusToTop`: `updateScore` with the bonus for each of the first
        `topN` ranked players; a negative count raises after the ranking. */
    method AwardBonusToTop(topN: int, bonusPoints: int, now: int) returns (r: Result<(), string>)
      requires Valid() && IsInt(topN)
      modifies this
      ensures Valid() && ids == old(ids)
      ensures ranked == RankOrder(ids, ScoresOf(old(players)))
      ensures topN < 0 ==> r.Err? && players == Reranked(old(players), ranked)
      ensures 0 <= topN ==>
        && r.Ok?
        && players == Bonused(Reranked(old(players), ranked), ranked[..Min(topN, |ranked|)], bonusPoints, now)
      ensures ranksDirty <==> 0 < topN && ranked != []
    {
      UpdateRanksIfNeeded();
      if topN < 0 {
        return Err("IllegalArgumentException");
      }
      var top := ranked[..Min(topN, |ranked|)];
      RankOrderEnumerates(ids, ScoresOf(players));
      EnumeratesPrefix(ranked, players.Keys, Min(topN, |ranked|));
      AwardEach(top, bonusPoints, now);
      return Ok(());
    }

    /** The loop of `awardBonusToTop`: `updateScore` for each id in turn. */
    method AwardEach(top: seq<string>, bonusPoints: int, now: int)
      requires Valid() && Distinct(top)
      requires forall i :: 0 <= i < |top| ==> top[i] in players
      modifies this
      ensures Valid() && ids == old(ids) && ranked == old(ranked)
      ensures players == Bonused(old(players), top, bonusPoints, now)
      ensures top != [] ==> ranksDirty
      ensures top == [] ==> ranksDirty == old(ranksDirty)
    {
      ghost var base := players;
      for i := 0 to |top|
        invariant Valid() && ids == old(ids) && ranked == old(ranked)
        invariant i > 0 ==> ranksDirty
        invariant i == 0 ==> ranksDirty == old(ranksDirty)
        invariant players == Bonused(base, top[..i], bonusPoints, now)
      {
        BonusedStep(base, top, i, bonusPoints, now);
        UpdateScore(top[i], bonusPoints, now);
      }
      assert top[..|top|] == top;
    }

    /** `getPlayer`. */
    function GetPlayer(id: string): (r: Option<Stats>)
      reads this
      requires Valid()
      ensures r.Some? <==> id in players
      ensures r.Some? ==> r.value.id == id && r.value == players[id]
    {
      if id in players then Some(players[id]) else None
    }

    /** `getPlayerCount`: one per id. */
    function GetPlayerCount(): (n: nat)
      reads this
      requires Valid()
      ensures n == |ids|
    {
      EnumeratesSize(ids, players.Keys);
      |players|
    }
  }
}
