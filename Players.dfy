/** A leaderboard player (java/test_failure/.../model/Player.java). Scores are
    Java `long`s and the game counters `int`s, so their arithmetic wraps
    around; the clock `Instant.now()` is the caller's `now`. */
module Players {
  import opened MachineInt
  import opened Tiers

  /** Everything a player holds, as one value. */
  datatype Stats = Stats(
    id: string, username: string, score: int, rank: int,
    gamesPlayed: int, wins: int, lastActive: int, tier: Tier)

  /** A player as the constructor leaves it. */
  function Joined(id: string, username: string, now: int): (s: Stats)
    ensures s.id == id && s.username == username && s.lastActive == now
    ensures s.score == 0 && s.rank == 0 && s.gamesPlayed == 0 && s.wins == 0 && s.tier == Bronze
  {
    Stats(id, username, 0, 0, 0, 0, now, Bronze)
  }

  /** `addScore`: the points go onto the `long` score, with no floor at 0. */
  function Scored(s: Stats, points: int, now: int): (r: Stats)
    ensures r == s.(score := r.score, lastActive := now) && IsLong(r.score)
    ensures IsLong(s.score + points) ==> r.score == s.score + points
  {
    s.(score := WrapLong(s.score + points), lastActive := now)
  }

  /** `recordGame`: one more game, and one more win when it was won. */
  function Played(s: Stats, won: bool, now: int): (r: Stats)
    ensures r == s.(gamesPlayed := r.gamesPlayed, wins := r.wins, lastActive := now)
    ensures IsInt(s.gamesPlayed + 1) ==> r.gamesPlayed == s.gamesPlayed + 1
    ensures IsInt(s.wins + 1) ==> r.wins == s.wins + (if won then 1 else 0)
  {
    s.(gamesPlayed := WrapInt(s.gamesPlayed + 1),
       wins := if won then WrapInt(s.wins + 1) else s.wins,
       lastActive := now)
  }

  /** Recording games keeps the wins between 0 and the games played, as
      long as the game counter does not overflow. */
  lemma PlayedKeepsWinsWithinGames(s: Stats, won: bool, now: int)
    requires 0 <= s.wins <= s.gamesPlayed < IntMax
    ensures 0 <= Played(s, won, now).wins <= Played(s, won, now).gamesPlayed
  {
  }

  /** Adding points may leave the score below zero: 100 and then -200 points
      give -100. */
  lemma ScoredGoesNegative(s: Stats, now: int)
    requires s.score == 100
    ensures Scored(s, -200, now).score == -100
  {
  }

  /** The score rule the leaderboard's tests ask for: never below zero. */
  function FlooredScore(s: Stats, points: int, now: int): (r: Stats)
    ensures r == s.(score := r.score, lastActive := now)
    ensures 0 <= r.score
    ensures IsLong(s.score + points) && 0 <= s.score + points ==> r.score == s.score + points
  {
    var total := WrapLong(s.score + points);
    s.(score := if total < 0 then 0 else total, lastActive := now)
  }

  lemma FlooredScoreExample(s: Stats, now: int)
    requires s.score == 100
    ensures FlooredScore(s, -200, now).score == 0
    ensures FlooredScore(s, 50, now).score == 150
  {
  }

  class Player {
    var id: string
    var username: string
    var score: int
    var rank: int
    var gamesPlayed: int
    var wins: int
    var lastActive: int
    var tier: Tier

    ghost function State(): Stats
      reads this
    {
      Stats(id, username, score, rank, gamesPlayed, wins, lastActive, tier)
    }

    /** A new player: score, rank, games and wins 0, tier BRONZE. */
    constructor(id: string, username: string, now: int)
      ensures State() == Joined(id, username, now)
    {
      this.id := id;
      this.username := username;
      score := 0;
      rank := 0;
      gamesPlayed := 0;
      wins := 0;
      lastActive := now;
      tier := Bronze;
    }

    method AddScore(points: int, now: int)
      modifies this
      ensures State() == Scored(old(State()), points, now)
    {
      score := WrapLong(score + points);
      lastActive := now;
    }

    method RecordGame(won: bool, now: int)
      modifies this
      ensures State() == Played(old(State()), won, now)
    {
      gamesPlayed := WrapInt(gamesPlayed + 1);
      if won {
        wins := WrapInt(wins + 1);
      }
      lastActive := now;
    }

    /** `equals`: two players are equal exactly when their ids are. */
    function Equals(o: Player?): (b: bool)
      reads this, o
      ensures b <==> o != null && o.id == id
    {
      this == o || (o != null && id == o.id)
    }
  }
}
