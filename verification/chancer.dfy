/** The label the admission-chance tab puts next to each college's
    estimated chance, in percent. */
module Chancer {

  datatype Label = Reach | HardTarget | Target | Safety {
    /** The text shown for the label. */
    function Text(): string {
      match this
      case Reach => "Reach"
      case HardTarget => "Hard Target"
      case Target => "Target"
      case Safety => "Safety"
    }

    /** The colour the label is drawn in. */
    function Color(): string {
      match this
      case Reach => "#FF6B6B"
      case HardTarget => "#FFEAA7"
      case Target => "#4ECDC4"
      case Safety => "#96CEB4"
    }

    /** Position from the least to the most likely label. */
    function Rank(): nat {
      match this
      case Reach => 0
      case HardTarget => 1
      case Target => 2
      case Safety => 3
    }
  }

  /** The chances at which the label moves up one step. */
  const Thresholds: seq<real> := [15.0, 50.0, 75.0]

  /** How many of `ts` are at or below `x`. */
  function CountAtOrBelow(ts: seq<real>, x: real): nat {
    if ts == [] then 0 else (if ts[0] <= x then 1 else 0) + CountAtOrBelow(ts[1..], x)
  }

  /** `getLabel`: the first label whose upper bound exceeds the chance. Its
      rank is the number of thresholds the chance has reached. */
  function GetLabel(chance: real): (l: Label)
    ensures l.Rank() == CountAtOrBelow(Thresholds, chance)
  {
    assert Thresholds[1..] == [50.0, 75.0] && Thresholds[1..][1..] == [75.0] && [75.0][1..] == [];
    assert CountAtOrBelow([75.0], chance) == if 75.0 <= chance then 1 else 0;
    if chance < 15.0 then Reach
    else if chance < 50.0 then HardTarget
    else if chance < 75.0 then Target
    else Safety
  }

  /** A higher chance never gets a less likely label. */
  lemma GetLabelMonotone(a: real, b: real)
    requires a <= b
    ensures GetLabel(a).Rank() <= GetLabel(b).Rank()
  {
  }

  /** Each label is reached, and the four are told apart by their texts. */
  lemma LabelsDistinct(l: Label, m: Label)
    ensures l.Text() == m.Text() <==> l == m
    ensures GetLabel(l.Rank() as real * 25.0 + 1.0) == l
  {
  }
}
