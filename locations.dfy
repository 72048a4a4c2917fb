/**
 * Choosing the target of a round. In hotspot mode the curated list is
 * shuffled (Fisher-Yates) and its first element taken; otherwise up to 50
 * random points in the city's bounding box are drawn, and the first that lies
 * inside the city boundary and has Street View imagery is taken, falling back
 * to the first curated location.
 *
 * `Math.random()` is a sequence `draws` of values in [0, 1), consumed in call
 * order; the point-in-polygon test and the imagery lookup are oracles.
 */
module Locations {
  import opened Wrappers

  datatype Location = Location(lat: real, lng: real)

  /** `gameSettings.mode`: "hotspot", or anything else, which selects random sampling. */
  datatype Mode = Hotspot | RandomSampling

  const MinLat: real := 51.4808012
  const MaxLat: real := 51.6315932
  const MinLng: real := 6.9874995
  const MaxLng: real := 7.152337

  const MaxAttempts: nat := 50

  predicate IsDraw(r: real) { 0.0 <= r < 1.0 }

  predicate AreDraws(draws: seq<real>) { forall k | 0 <= k < |draws| :: IsDraw(draws[k]) }

  /** `Math.floor(Math.random() * n)`: an index below `n`. */
  function PickIndex(r: real, n: nat): (j: nat)
    requires IsDraw(r) && n > 0
    ensures j < n
  {
    var x := r * n as real;
    assert 0.0 <= x < n as real by {
      assert r * n as real < 1.0 * n as real;
    }
    x.Floor
  }

  /** `[s[i], s[j]] = [s[j], s[i]]` */
  function Swap<T>(s: seq<T>, i: nat, j: nat): (r: seq<T>)
    requires i < |s| && j < |s|
    ensures |r| == |s| && r[i] == s[j] && r[j] == s[i]
    ensures forall k | 0 <= k < |s| && k != i && k != j :: r[k] == s[k]
  {
    s[i := s[j]][j := s[i]]
  }

  lemma SwapPermutes<T>(s: seq<T>, i: nat, j: nat)
    requires i < |s| && j < |s|
    ensures multiset(Swap(s, i, j)) == multiset(s)
  {
    var t := s[i := s[j]];
    assert multiset(t) == multiset(s) - multiset{s[i]} + multiset{s[j]};
    assert multiset(t[j := s[i]]) == multiset(t) - multiset{t[j]} + multiset{s[i]};
  }

  /**
   * What the shuffle loop leaves behind when it is at index `i` with `s` in
   * hand: the passes for i, i - 1, ..., 1, pass `k` swapping `s[k]` with an
   * index picked by draw number |s| - 1 - k.
   */
  function ShuffleSteps<T>(s: seq<T>, i: int, draws: seq<real>): (r: seq<T>)
    requires i < |s| && AreDraws(draws) && |draws| >= |s| - 1
    ensures |r| == |s|
    decreases i
  {
    if i <= 0 then s
    else ShuffleSteps(Swap(s, i, PickIndex(draws[|s| - 1 - i], i + 1)), i - 1, draws)
  }

  /** `shuffleArray(s)` as a value: the loop run from the last index down to 1. */
  function Shuffled<T>(s: seq<T>, draws: seq<real>): (r: seq<T>)
    requires AreDraws(draws) && |draws| >= |s| - 1
    ensures |r| == |s|
  {
    ShuffleSteps(s, |s| - 1, draws)
  }

  lemma {:induction false} ShuffleStepsPermutes<T>(s: seq<T>, i: int, draws: seq<real>)
    requires i < |s| && AreDraws(draws) && |draws| >= |s| - 1
    ensures multiset(ShuffleSteps(s, i, draws)) == multiset(s)
    decreases i
  {
    if i > 0 {
      var j := PickIndex(draws[|s| - 1 - i], i + 1);
      SwapPermutes(s, i, j);
      ShuffleStepsPermutes(Swap(s, i, j), i - 1, draws);
    }
  }

  /** The shuffle returns a permutation of its input, whatever the draws. */
  lemma ShuffledPermutes<T>(s: seq<T>, draws: seq<real>)
    requires AreDraws(draws) && |draws| >= |s| - 1
    ensures multiset(Shuffled(s, draws)) == multiset(s)
  {
    ShuffleStepsPermutes(s, |s| - 1, draws);
  }

  /** `[array[i], array[j]] = [array[j], array[i]]` */
  method SwapElements<T>(a: array<T>, i: nat, j: nat)
    requires i < a.Length && j < a.Length
    modifies a
    ensures a[..] == Swap(old(a[..]), i, j)
  {
    a[i], a[j] := a[j], a[i];
  }

  /**
   * `Math.floor(Math.random() * (i + 1))` for pass `i` of an array of length `n`,
   * computed apart from the loop so that the loop's proof sees only this
   * contract and not the real arithmetic inside `PickIndex`.
   */
  method PickSwapIndex(draws: seq<real>, n: nat, i: int) returns (j: nat)
    requires AreDraws(draws) && |draws| >= n - 1 && 0 < i < n
    ensures j <= i && j == PickIndex(draws[n - 1 - i], i + 1)
  {
    j := PickIndex(draws[n - 1 - i], i + 1);
  }

  /** `shuffleArray(array)`: shuffles `a` in place. */
  method ShuffleArray<T>(a: array<T>, draws: seq<real>)
    requires AreDraws(draws) && |draws| >= a.Length - 1
    modifies a
    ensures a[..] == Shuffled(old(a[..]), draws)
  {
    ghost var original := a[..];
    var i := a.Length - 1;
    while i > 0
      invariant i < a.Length
      invariant ShuffleSteps(a[..], i, draws) == Shuffled(original, draws)
    {
      var j := PickSwapIndex(draws, a.Length, i);
      SwapElements(a, i, j);
      i := i - 1;
    }
  }

  /** The random point of attempt `k`: latitude from draw 2k, longitude from draw 2k + 1. */
  function Candidate(draws: seq<real>, k: nat): (c: Location)
    requires 2 * k + 1 < |draws| && AreDraws(draws)
    ensures MinLat <= c.lat < MaxLat && MinLng <= c.lng < MaxLng
  {
    Location(MinLat + draws[2 * k] * (MaxLat - MinLat), MinLng + draws[2 * k + 1] * (MaxLng - MinLng))
  }

  /** Attempt `k` succeeds: its point lies inside the city and the imagery lookup answered "OK". */
  predicate Accepted(draws: seq<real>, inCity: Location -> bool, hasImagery: Location -> bool, k: nat)
    requires 2 * k + 1 < |draws| && AreDraws(draws)
  {
    inCity(Candidate(draws, k)) && hasImagery(Candidate(draws, k))
  }

  /** `locations[0]`, undefined for an empty list. */
  function Fallback(locations: seq<Location>): (r: Option<Location>)
    ensures r.Some? <==> |locations| > 0
    ensures r.Some? ==> r.value in locations
  {
    if |locations| > 0 then Some(locations[0]) else None
  }

  /**
   * `findNewLocation(gameMode)`. `attempts` is the number of random points drawn
   * (none in hotspot mode). A failed or erroring imagery lookup counts as "no imagery".
   */
  method FindNewLocation(mode: Mode, locations: seq<Location>, draws: seq<real>,
                         inCity: Location -> bool, hasImagery: Location -> bool)
    returns (found: Option<Location>, attempts: nat)
    requires AreDraws(draws)
    requires mode == Hotspot ==> |draws| >= |locations| - 1
    requires mode == RandomSampling ==> |draws| >= 2 * MaxAttempts
    ensures mode == Hotspot ==> attempts == 0
    ensures mode == Hotspot ==> found == (if |locations| == 0 then None else Some(Shuffled(locations, draws)[0]))
    ensures mode == Hotspot ==> (found.Some? <==> |locations| > 0) && (found.Some? ==> found.value in locations)
    ensures mode == RandomSampling ==> 1 <= attempts <= MaxAttempts
    ensures mode == RandomSampling ==> forall k | 0 <= k < attempts - 1 :: !Accepted(draws, inCity, hasImagery, k)
    ensures mode == RandomSampling && Accepted(draws, inCity, hasImagery, attempts - 1) ==>
              found == Some(Candidate(draws, attempts - 1))
    ensures mode == RandomSampling && !Accepted(draws, inCity, hasImagery, attempts - 1) ==>
              attempts == MaxAttempts && found == Fallback(locations)
  {
    if mode == Hotspot {
      var a := new Location[|locations|](i requires 0 <= i < |locations| => locations[i]);
      assert a[..] == locations;
      ShuffleArray(a, draws);
      ShuffledPermutes(locations, draws);
      attempts := 0;
      if a.Length > 0 {
        found := Some(a[0]);
        assert a[0] in multiset(a[..]);
      } else {
        found := None;
      }
      return;
    }
    attempts := 0;
    while attempts < MaxAttempts
      invariant attempts <= MaxAttempts
      invariant forall k | 0 <= k < attempts :: !Accepted(draws, inCity, hasImagery, k)
    {
      var point := Candidate(draws, attempts);
      attempts := attempts + 1;
      if !inCity(point) {
        continue;
      }
      if hasImagery(point) {
        found := Some(point);
        return;
      }
    }
    found := Fallback(locations);
  }
}
