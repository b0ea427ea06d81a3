/** Player tiers of the leaderboard (java/test_failure/.../model/PlayerTier.java):
    five score bands in declaration order, and the lookup of a score's band. */
module Tiers {
  import opened Wrappers
  import opened MachineInt

  datatype Tier = Bronze | Silver | Gold | Platinum | Diamond

  /** `values()`: the tiers in declaration order. */
  const AllTiers: seq<Tier> := [Bronze, Silver, Gold, Platinum, Diamond]

  function MinScore(t: Tier): int {
    match t
    case Bronze => 0
    case Silver => 1000
    case Gold => 5000
    case Platinum => 15000
    case Diamond => 30000
  }

  function MaxScore(t: Tier): int {
    match t
    case Bronze => 999
    case Silver => 4999
    case Gold => 14999
    case Platinum => 29999
    case Diamond => LongMax
  }

  predicate InBand(t: Tier, score: int) {
    MinScore(t) <= score <= MaxScore(t)
  }

  /** The bands are contiguous: they start at 0, each begins one past the end
      of the one before, and the last ends at `Long.MAX_VALUE`. */
  lemma TiersContiguous()
    ensures MinScore(AllTiers[0]) == 0 && MaxScore(AllTiers[|AllTiers| - 1]) == LongMax
    ensures forall i :: 0 <= i < |AllTiers| - 1 ==> MaxScore(AllTiers[i]) + 1 == MinScore(AllTiers[i + 1])
    ensures forall i :: 0 <= i < |AllTiers| ==> MinScore(AllTiers[i]) <= MaxScore(AllTiers[i])
  {
  }

  /** ... and therefore disjoint: a later band lies wholly above an earlier one. */
  lemma TiersDisjoint(i: nat, j: nat)
    requires i < j < |AllTiers|
    ensures MaxScore(AllTiers[i]) < MinScore(AllTiers[j])
    decreases j - i
  {
    TiersContiguous();
    if i + 1 < j {
      TiersDisjoint(i + 1, j);
    }
  }

  /** The first tier of `ts` whose band holds `score`. */
  function FirstHolding(ts: seq<Tier>, score: int): (r: Option<Tier>)
    ensures r.Some? ==> r.value in ts && InBand(r.value, score)
    ensures r.None? ==> forall i :: 0 <= i < |ts| ==> !InBand(ts[i], score)
  {
    if ts == [] then None
    else if InBand(ts[0], score) then Some(ts[0])
    else FirstHolding(ts[1..], score)
  }

  /** Some band holds every score a `long` can take from 0 up. */
  lemma Covered(score: int)
    ensures 0 <= score <= LongMax ==> FirstHolding(AllTiers, score).Some?
  {
    if 0 <= score <= LongMax {
      var k := if score < 1000 then 0 else if score < 5000 then 1 else if score < 15000 then 2
        else if score < 30000 then 3 else 4;
      assert InBand(AllTiers[k], score);
    }
  }

  /** `fromScore`: the first tier in declaration order whose band holds the
      score, or BRONZE when none does. */
  function FromScore(score: int): (t: Tier)
    ensures 0 <= score <= LongMax ==> InBand(t, score)
    ensures score < 0 ==> t == Bronze
  {
    Covered(score);
    match FirstHolding(AllTiers, score)
    case Some(t) => t
    case None => Bronze
  }

  /** Every tier is one of `values()`. */
  lemma Listed(t: Tier)
    ensures exists i :: 0 <= i < |AllTiers| && AllTiers[i] == t
  {
    match t
    case Bronze => assert AllTiers[0] == t;
    case Silver => assert AllTiers[1] == t;
    case Gold => assert AllTiers[2] == t;
    case Platinum => assert AllTiers[3] == t;
    case Diamond => assert AllTiers[4] == t;
  }

  /** The band `fromScore` finds is the only one holding the score. */
  lemma FromScoreUnique(score: int, t: Tier)
    requires InBand(t, score)
    ensures FromScore(score) == t
  {
    var r := FromScore(score);
    Listed(t);
    Listed(r);
    var i :| 0 <= i < |AllTiers| && AllTiers[i] == t;
    var j :| 0 <= j < |AllTiers| && AllTiers[j] == r;
    if i < j {
      TiersDisjoint(i, j);
    } else if j < i {
      TiersDisjoint(j, i);
    }
  }

  /** A score of exactly 1000 is SILVER; a negative one BRONZE. */
  lemma FromScoreExamples()
    ensures FromScore(1000) == Silver && FromScore(999) == Bronze
    ensures FromScore(-100) == Bronze && FromScore(30000) == Diamond
  {
    FromScoreUnique(1000, Silver);
    FromScoreUnique(999, Bronze);
    FromScoreUnique(30000, Diamond);
  }

  /** `updatePlayerTier` in the leaderboard service: its own thresholds,
      each compared with a strict `>`. */
  function TierAfterUpdate(score: int): (t: Tier)
  {
    if score > 30000 then Diamond
    else if score > 15000 then Platinum
    else if score > 5000 then Gold
    else if score > 1000 then Silver
    else Bronze
  }

  /** The service's tier agrees with `fromScore` except on the first score
      of each band above BRONZE, which it places one tier too low. */
  lemma TierAfterUpdateVersusFromScore(score: int)
    requires 0 <= score <= LongMax
    ensures score !in {1000, 5000, 15000, 30000} ==> TierAfterUpdate(score) == FromScore(score)
    ensures score in {1000, 5000, 15000, 30000} ==>
      && TierAfterUpdate(score) != FromScore(score)
      && MinScore(FromScore(score)) == score
      && MaxScore(TierAfterUpdate(score)) == score - 1
  {
    if score !in {1000, 5000, 15000, 30000} {
      FromScoreUnique(score, TierAfterUpdate(score));
    } else if score == 1000 {
      FromScoreUnique(score, Silver);
    } else if score == 5000 {
      FromScoreUnique(score, Gold);
    } else if score == 15000 {
      FromScoreUnique(score, Platinum);
    } else {
      FromScoreUnique(score, Diamond);
    }
  }

  /** The enum constant's name. */
  function Name(t: Tier): string {
    match t
    case Bronze => "BRONZE"
    case Silver => "SILVER"
    case Gold => "GOLD"
    case Platinum => "PLATINUM"
    case Diamond => "DIAMOND"
  }

  /** `valueOf`: the constant with exactly that name; any other string,
      whatever its case, raises IllegalArgumentException (None). */
  function ValueOf(name: string): (r: Option<Tier>)
    ensures r.Some? ==> Name(r.value) == name
  {
    if name == "BRONZE" then Some(Bronze)
    else if name == "SILVER" then Some(Silver)
    else if name == "GOLD" then Some(Gold)
    else if name == "PLATINUM" then Some(Platinum)
    else if name == "DIAMOND" then Some(Diamond)
    else None
  }

  /** `valueOf` inverts `name()`, and only the exact upper-case spelling is
      accepted: "silver" is not a tier name. */
  lemma ValueOfName(t: Tier)
    ensures ValueOf(Name(t)) == Some(t)
    ensures ValueOf("silver") == None
  {
    assert "silver"[0] != "SILVER"[0];
  }
}
