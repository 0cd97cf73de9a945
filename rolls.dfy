/** `Roll` and its evaluation `Roll::cast`. The random draws are not modelled: the caller
    supplies one outcome per die, each within that die's range. */
module Rolls {
  import opened DieModel

  /** A parsed request: one entry per die to throw, and the flat modifiers. */
  datatype Roll = Roll(dice: seq<Die>, constants: seq<int>)

  /** `Roll::new()`. */
  function NewRoll(): Roll {
    Roll([], [])
  }

  /** `iter().sum()` over a sequence of integers. */
  function Sum(xs: seq<int>): int {
    if xs == [] then 0 else xs[0] + Sum(xs[1..])
  }

  /** `outcomes` is a possible result of drawing every die of `dice`, in order. */
  predicate ValidOutcomes(dice: seq<Die>, outcomes: seq<int>) {
    |outcomes| == |dice| && forall i :: 0 <= i < |dice| ==> IsOutcome(dice[i], outcomes[i])
  }

  /** The largest possible dice total: every die shows its highest face. */
  function MaxTotal(dice: seq<Die>): nat {
    if dice == [] then 0 else Sides(dice[0]) + MaxTotal(dice[1..])
  }

  /** `roll.cast(crit)` after the draws came out as `outcomes`: the dice total times the
      critical multiplier, plus the constants. */
  function Cast(roll: Roll, crit: int, outcomes: seq<int>): int
    requires ValidOutcomes(roll.dice, outcomes)
  {
    Sum(outcomes) * crit + Sum(roll.constants)
  }

  lemma {:induction false} SumAppend(a: seq<int>, b: seq<int>)
    ensures Sum(a + b) == Sum(a) + Sum(b)
  {
    if a != [] {
      assert (a + b)[1..] == a[1..] + b;
      SumAppend(a[1..], b);
    } else {
      assert a + b == b;
    }
  }

  /** The dice total lies between one per die and the sum of the dice's sides. */
  lemma {:induction false} DiceTotalBounds(dice: seq<Die>, outcomes: seq<int>)
    requires ValidOutcomes(dice, outcomes)
    ensures |dice| <= Sum(outcomes) <= MaxTotal(dice)
  {
    if dice != [] {
      OutcomeRange(dice[0], outcomes[0]);
      assert ValidOutcomes(dice[1..], outcomes[1..]) by {
        forall i | 0 <= i < |dice| - 1 ensures IsOutcome(dice[1..][i], outcomes[1..][i]) {
          assert dice[1..][i] == dice[i + 1] && outcomes[1..][i] == outcomes[i + 1];
        }
      }
      DiceTotalBounds(dice[1..], outcomes[1..]);
    }
  }

  /** Both bounds are reached: all ones, and every die on its highest face, are valid draws. */
  lemma {:induction false} DiceTotalExtremes(dice: seq<Die>)
    ensures ValidOutcomes(dice, seq(|dice|, _ => 1))
    ensures Sum(seq(|dice|, _ => 1)) == |dice|
    ensures ValidOutcomes(dice, seq(|dice|, i requires 0 <= i < |dice| => Sides(dice[i])))
    ensures Sum(seq(|dice|, i requires 0 <= i < |dice| => Sides(dice[i]))) == MaxTotal(dice)
  {
    forall i | 0 <= i < |dice| ensures IsOutcome(dice[i], 1) && IsOutcome(dice[i], Sides(dice[i])) {
      OutcomeRange(dice[i], 1);
    }
    if dice != [] {
      DiceTotalExtremes(dice[1..]);
      assert seq(|dice|, _ => 1)[1..] == seq(|dice| - 1, _ => 1);
      assert seq(|dice|, i requires 0 <= i < |dice| => Sides(dice[i]))[1..]
          == seq(|dice[1..]|, i requires 0 <= i < |dice[1..]| => Sides(dice[1..][i]));
    }
  }

  /** With a non-negative multiplier the total lies between `crit` per die and `crit` times
      the highest possible dice total, shifted by the constants. */
  lemma CastBounds(roll: Roll, crit: int, outcomes: seq<int>)
    requires ValidOutcomes(roll.dice, outcomes) && crit >= 0
    ensures |roll.dice| * crit + Sum(roll.constants) <= Cast(roll, crit, outcomes)
    ensures Cast(roll, crit, outcomes) <= MaxTotal(roll.dice) * crit + Sum(roll.constants)
  {
    DiceTotalBounds(roll.dice, outcomes);
    MultiplyMonotone(|roll.dice|, Sum(outcomes), crit);
    MultiplyMonotone(Sum(outcomes), MaxTotal(roll.dice), crit);
  }

  lemma MultiplyMonotone(a: int, b: int, c: int)
    requires a <= b && c >= 0
    ensures a * c <= b * c
  {
  }

  /** Only the dice are multiplied: a critical hit (multiplier 2) adds the dice total once
      more and leaves the constants alone, for every roll and every draw. */
  lemma CriticalDoublesOnlyDice(roll: Roll, outcomes: seq<int>)
    requires ValidOutcomes(roll.dice, outcomes)
    ensures Cast(roll, 2, outcomes) == Cast(roll, 1, outcomes) + Sum(outcomes)
    ensures Cast(roll, 2, outcomes) - Sum(roll.constants) == 2 * (Cast(roll, 1, outcomes) - Sum(roll.constants))
  {
  }

  /** A roll without dice is worth the sum of its constants whatever the multiplier; the empty
      roll is worth 0. */
  lemma DiceFreeRoll(roll: Roll, crit: int)
    requires roll.dice == []
    ensures Cast(roll, crit, []) == Sum(roll.constants)
    ensures Cast(NewRoll(), crit, []) == 0
  {
  }

  /** Casting the concatenation of two rolls with the concatenated draws adds their totals:
      neither the grouping of dice nor their order changes the result. */
  lemma CastAppend(r1: Roll, o1: seq<int>, r2: Roll, o2: seq<int>, crit: int)
    requires ValidOutcomes(r1.dice, o1) && ValidOutcomes(r2.dice, o2)
    ensures ValidOutcomes(r1.dice + r2.dice, o1 + o2)
    ensures Cast(Roll(r1.dice + r2.dice, r1.constants + r2.constants), crit, o1 + o2)
         == Cast(r1, crit, o1) + Cast(r2, crit, o2)
  {
    SumAppend(o1, o2);
    SumAppend(r1.constants, r2.constants);
    assert ValidOutcomes(r1.dice + r2.dice, o1 + o2) by {
      forall i | 0 <= i < |r1.dice| + |r2.dice|
        ensures IsOutcome((r1.dice + r2.dice)[i], (o1 + o2)[i])
      {
        if i >= |r1.dice| {
          assert (r1.dice + r2.dice)[i] == r2.dice[i - |r1.dice|];
          assert (o1 + o2)[i] == o2[i - |o1|];
        }
      }
    }
    assert (Sum(o1) + Sum(o2)) * crit == Sum(o1) * crit + Sum(o2) * crit;
  }
}
