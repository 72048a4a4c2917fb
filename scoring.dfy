/**
 * The round score: 5000 points for a perfect guess, one point less for every
 * full 5 metres of distance, never below zero.
 */
module Scoring {
  const MaxScore: nat := 5000
  const MetresPerPoint: nat := 5

  /** `Math.max(0, 5000 - Math.floor(distance / 5))` for a distance of `metres` whole metres. */
  function RoundScore(metres: nat): (s: nat)
    ensures s <= MaxScore
    ensures s == MaxScore <==> metres < MetresPerPoint
    ensures s == 0 <==> metres >= MaxScore * MetresPerPoint
  {
    var penalty := metres / MetresPerPoint;
    if MaxScore - penalty > 0 then MaxScore - penalty else 0
  }

  /** A guess further away never scores more. */
  lemma ScoreNonIncreasing(near: nat, far: nat)
    requires near <= far
    ensures RoundScore(far) <= RoundScore(near)
  {
    assert near / MetresPerPoint <= far / MetresPerPoint by {
      var q := near / MetresPerPoint;
      assert q * MetresPerPoint <= near <= far;
    }
  }

  /** Each extra 5 metres costs exactly one point until the score reaches zero. */
  lemma ScoreStep(metres: nat)
    requires metres + MetresPerPoint <= MaxScore * MetresPerPoint
    ensures RoundScore(metres + MetresPerPoint) == RoundScore(metres) - 1
  {
    assert (metres + MetresPerPoint) / MetresPerPoint == metres / MetresPerPoint + 1;
  }

  /** The formula on the real-valued distance the server computes. */
  function ScoreForDistance(distance: real): (s: int)
    requires distance >= 0.0
    ensures 0 <= s <= MaxScore
  {
    var penalty := (distance / MetresPerPoint as real).Floor;
    if MaxScore - penalty > 0 then MaxScore - penalty else 0
  }

  /** Only the whole metres of the distance matter, so the score depends on the integer part alone. */
  lemma FloorOfFifth(distance: real)
    requires distance >= 0.0
    ensures (distance / 5.0).Floor == distance.Floor / 5
  {
    var n := distance.Floor;
    var q := n / 5;
    assert 5 * q <= n < 5 * q + 5;
    assert n as real <= distance < n as real + 1.0;
    var y := distance / 5.0;
    assert q as real <= y by {
      assert (5 * q) as real <= distance;
    }
    assert y < q as real + 1.0 by {
      assert distance < (5 * q + 5) as real;
    }
    assert y.Floor as real <= y < y.Floor as real + 1.0;
  }

  /** The integer model agrees with the formula on real distances. */
  lemma RealScoreAgrees(distance: real)
    requires distance >= 0.0
    ensures ScoreForDistance(distance) == RoundScore(distance.Floor as nat)
  {
    FloorOfFifth(distance);
  }
}
