/** The closed table of fruit categories (FRUIT_TYPES): each category has a
    score, a radius, a spawn weight and at most one special flag. */
module Fruits {

  datatype Kind = Watermelon | Orange | Lemon | Apple | Kiwi | Coconut | Bomb | Ice | Giant
  {
    /** Points the table attaches to the category. */
    function Score(): int {
      match this
      case Watermelon => 10
      case Orange => 10
      case Lemon => 10
      case Apple => 10
      case Kiwi => 20
      case Coconut => 30
      case Bomb => -50
      case Ice => 0
      case Giant => 50
    }

    /** Collision radius in canvas pixels. */
    function Radius(): nat {
      match this
      case Watermelon => 40
      case Kiwi => 30
      case Ice => 30
      case Giant => 60
      case _ => 35
    }

    /** Relative spawn frequency. */
    function Weight(): nat {
      match this
      case Watermelon => 10
      case Orange => 10
      case Lemon => 10
      case Apple => 10
      case Kiwi => 8
      case Coconut => 8
      case Bomb => 6
      case Ice => 2
      case Giant => 1
    }

    predicate IsBomb() { this == Bomb }
    predicate IsIce() { this == Ice }
    predicate IsGiant() { this == Giant }

    /** A category with none of the three special flags. */
    predicate IsPlain() { !IsBomb() && !IsIce() && !IsGiant() }
  }

  /** FRUIT_TYPES, in table order; the order fixes the weighted walk. */
  const FruitTypes: seq<Kind> := [Watermelon, Orange, Lemon, Apple, Kiwi, Coconut, Bomb, Ice, Giant]

  /** Sum of the weights of the first i table entries. */
  function PrefixWeight(i: nat): (w: nat)
    requires i <= |FruitTypes|
    ensures i > 0 ==> w >= PrefixWeight(i - 1) + 1
  {
    if i == 0 then 0 else PrefixWeight(i - 1) + FruitTypes[i - 1].Weight()
  }

  /** The value of the `reduce` over all weights (see TotalWeightIsSum). */
  const TotalWeight: nat := 65

  /** The cumulative weights of the table: the shares of the draw are
      [0,10) [10,20) [20,30) [30,40) [40,48) [48,56) [56,62) [62,64) [64,65)
      in table order. */
  lemma PrefixWeights()
    ensures PrefixWeight(1) == 10 && PrefixWeight(2) == 20 && PrefixWeight(3) == 30
    ensures PrefixWeight(4) == 40 && PrefixWeight(5) == 48 && PrefixWeight(6) == 56
    ensures PrefixWeight(7) == 62 && PrefixWeight(8) == 64 && PrefixWeight(9) == 65
  {
  }

  /** The constant is the sum of every weight in the table. */
  lemma TotalWeightIsSum()
    ensures TotalWeight == PrefixWeight(|FruitTypes|)
  {
    PrefixWeights();
  }

  /** Every category has a positive radius and a positive weight, and the
      three special flags exclude each other. */
  lemma TableWellFormed(k: Kind)
    ensures k.Radius() > 0 && k.Weight() > 0
    ensures !(k.IsBomb() && k.IsIce()) && !(k.IsBomb() && k.IsGiant()) && !(k.IsIce() && k.IsGiant())
    ensures k in FruitTypes
  {
  }

  /** Each category occupies exactly one slot of the table. */
  lemma TableIsClosedSet()
    ensures forall i, j :: 0 <= i < j < |FruitTypes| ==> FruitTypes[i] != FruitTypes[j]
    ensures |FruitTypes| == 9
  {
  }
}
