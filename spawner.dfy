/** Category selection for a new fruit (spawnFruit): a cumulative-weight walk
    over the table with a draw r in [0, TotalWeight), then the frenzy rule
    that turns a bomb into the first table entry. */
module Spawner {
  import opened Fruits

  /** The index the walk stops at when it reaches entry i still running:
      the first entry j >= i with r < PrefixWeight(j + 1), or the default
      entry 0 when the walk runs off the end of the table. */
  function WalkFrom(r: real, i: nat): (k: nat)
    requires i <= |FruitTypes|
    ensures k < |FruitTypes|
    decreases |FruitTypes| - i
  {
    if i == |FruitTypes| then 0
    else if r < PrefixWeight(i + 1) as real then i
    else WalkFrom(r, i + 1)
  }

  /** The table index the weighted walk selects for draw r. */
  function ChosenIndex(r: real): (k: nat)
    ensures k < |FruitTypes|
  {
    WalkFrom(r, 0)
  }

  /** The category a new fruit gets: the walk's choice, except that a bomb
      becomes `FRUIT_TYPES[0]` while frenzy is active. */
  function SpawnKind(r: real, frenzyActive: bool): (k: Kind)
    ensures k in FruitTypes
    ensures frenzyActive ==> !k.IsBomb()
    ensures !frenzyActive ==> k == FruitTypes[ChosenIndex(r)]
  {
    var k := FruitTypes[ChosenIndex(r)];
    if frenzyActive && k.IsBomb() then FruitTypes[0] else k
  }

  /** The walk of spawnFruit: keep subtracting weights from the draw and stop
      at the first entry whose weight exceeds what is left. */
  method PickType(r: real) returns (k: Kind)
    ensures k == FruitTypes[ChosenIndex(r)]
  {
    var random := r;
    k := FruitTypes[0];
    var i := 0;
    while i < |FruitTypes|
      invariant 0 <= i <= |FruitTypes|
      invariant random == r - PrefixWeight(i) as real
      invariant WalkFrom(r, i) == ChosenIndex(r)
      invariant k == FruitTypes[0]
    {
      var t := FruitTypes[i];
      if random < t.Weight() as real {
        k := t;
        break;
      }
      random := random - t.Weight() as real;
      i := i + 1;
    }
  }

  lemma {:induction false} PrefixMonotone(i: nat, j: nat)
    requires i <= j <= |FruitTypes|
    ensures PrefixWeight(i) <= PrefixWeight(j)
    decreases j - i
  {
    if i < j {
      PrefixMonotone(i, j - 1);
    }
  }

  lemma {:induction false} WalkFromFindsBucket(r: real, i: nat)
    requires i < |FruitTypes|
    requires PrefixWeight(i) as real <= r < TotalWeight as real
    ensures i <= WalkFrom(r, i)
    ensures PrefixWeight(WalkFrom(r, i)) as real <= r < PrefixWeight(WalkFrom(r, i) + 1) as real
    decreases |FruitTypes| - i
  {
    if r >= PrefixWeight(i + 1) as real {
      assert i + 1 < |FruitTypes| by { TotalWeightIsSum(); }
      WalkFromFindsBucket(r, i + 1);
    }
  }

  /** For a draw in [0, TotalWeight), entry i is chosen exactly when the draw
      lies in i's share [PrefixWeight(i), PrefixWeight(i + 1)), an interval
      of length i's weight: spawn frequencies follow the weights. */
  lemma ChosenIndexIsBucket(r: real, i: nat)
    requires 0.0 <= r < TotalWeight as real
    requires i < |FruitTypes|
    ensures ChosenIndex(r) == i <==> PrefixWeight(i) as real <= r < PrefixWeight(i + 1) as real
  {
    WalkFromFindsBucket(r, 0);
    var k := ChosenIndex(r);
    if k < i {
      PrefixMonotone(k + 1, i);
    } else if i < k {
      PrefixMonotone(i + 1, k);
    }
  }

  /** While frenzy is active no bomb is ever spawned; outside frenzy the
      walk's choice is kept as it is. */
  lemma FrenzyNeverSpawnsBomb(r: real)
    ensures !SpawnKind(r, true).IsBomb()
    ensures SpawnKind(r, false) == FruitTypes[ChosenIndex(r)]
    ensures !FruitTypes[ChosenIndex(r)].IsBomb() ==> SpawnKind(r, true) == FruitTypes[ChosenIndex(r)]
  {
  }

  /** The bomb's share of the draw is [56, 62); in frenzy it yields a
      watermelon instead. */
  lemma BombShareBecomesWatermelon(r: real)
    requires 56.0 <= r < 62.0
    ensures SpawnKind(r, false) == Bomb
    ensures SpawnKind(r, true) == Watermelon
  {
    PrefixWeights();
    ChosenIndexIsBucket(r, 6);
  }
}
