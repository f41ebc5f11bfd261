/** The prediction tallies: a confusion matrix of four counters and a plain
    right/wrong pair. */
module TestStatistics {

  /** The four cells of a binary confusion matrix. `recorded` counts the
      `add_*` calls since construction. */
  class TestStats {
    var truePositive: nat
    var falsePositive: nat
    var trueNegative: nat
    var falseNegative: nat
    ghost var recorded: nat

    /** Every recorded outcome sits in exactly one cell. */
    ghost predicate Valid()
      reads this
    {
      Size() == recorded
    }

    /** The number of outcomes in the matrix, which `print_stats` divides by. */
    function Size(): (n: nat)
      reads this
      ensures n >= truePositive && n >= falsePositive && n >= trueNegative && n >= falseNegative
    {
      trueNegative + truePositive + falseNegative + falsePositive
    }

    /** The derived `Default`: every counter zero. */
    constructor ()
      ensures Valid() && recorded == 0
      ensures truePositive == 0 && falsePositive == 0 && trueNegative == 0 && falseNegative == 0
    {
      truePositive, falsePositive, trueNegative, falseNegative := 0, 0, 0, 0;
      recorded := 0;
    }

    /** `add_true_positive`. */
    method AddTruePositive()
      requires Valid()
      modifies this
      ensures Valid() && recorded == old(recorded) + 1
      ensures truePositive == old(truePositive) + 1
      ensures falsePositive == old(falsePositive) && trueNegative == old(trueNegative) &&
              falseNegative == old(falseNegative)
    {
      truePositive := truePositive + 1;
      recorded := recorded + 1;
    }

    /** `add_false_positive`. */
    method AddFalsePositive()
      requires Valid()
      modifies this
      ensures Valid() && recorded == old(recorded) + 1
      ensures falsePositive == old(falsePositive) + 1
      ensures truePositive == old(truePositive) && trueNegative == old(trueNegative) &&
              falseNegative == old(falseNegative)
    {
      falsePositive := falsePositive + 1;
      recorded := recorded + 1;
    }

    /** `add_true_negative`. */
    method AddTrueNegative()
      requires Valid()
      modifies this
      ensures Valid() && recorded == old(recorded) + 1
      ensures trueNegative == old(trueNegative) + 1
      ensures truePositive == old(truePositive) && falsePositive == old(falsePositive) &&
              falseNegative == old(falseNegative)
    {
      trueNegative := trueNegative + 1;
      recorded := recorded + 1;
    }

    /** `add_false_negative`. */
    method AddFalseNegative()
      requires Valid()
      modifies this
      ensures Valid() && recorded == old(recorded) + 1
      ensures falseNegative == old(falseNegative) + 1
      ensures truePositive == old(truePositive) && falsePositive == old(falsePositive) &&
              trueNegative == old(trueNegative)
    {
      falseNegative := falseNegative + 1;
      recorded := recorded + 1;
    }

    /** `display_matrix`: the cells in the order printed, true and false
        positives on the first line, false and true negatives on the second.
        The cells hold every recorded outcome, and no counter changes. */
    method DisplayMatrix() returns (lines: seq<seq<nat>>)
      requires Valid()
      ensures |lines| == 2 && |lines[0]| == 2 && |lines[1]| == 2
      ensures lines[0][0] == truePositive && lines[1][1] == trueNegative
      ensures lines[0][1] == falsePositive && lines[1][0] == falseNegative
      ensures lines[0][0] + lines[0][1] + lines[1][0] + lines[1][1] == recorded
    {
      lines := [[truePositive, falsePositive], [falseNegative, trueNegative]];
    }

    /** The integer part of `print_stats`: the numerators and denominators of
        accuracy, precision and recall. Each ratio is at most one, the matrix
        size is the number of recorded outcomes, and no counter changes. */
    method PrintStats() returns (correct: nat, size: nat, truePositives: nat, predictedPositive: nat,
                                 actualPositive: nat)
      requires Valid()
      ensures size == recorded && correct <= size
      ensures truePositives == truePositive
      ensures truePositives <= predictedPositive <= size && truePositives <= actualPositive <= size
      ensures correct == truePositive + trueNegative
      ensures predictedPositive == truePositive + falsePositive && actualPositive == truePositive + falseNegative
    {
      size := trueNegative + truePositive + falseNegative + falsePositive;
      correct := truePositive + trueNegative;
      truePositives := truePositive;
      predictedPositive := truePositive + falsePositive;
      actualPositive := truePositive + falseNegative;
    }
  }

  /** Right and wrong predictions. `recorded` counts the calls since
      construction. */
  class RightVsWrong {
    var right: nat
    var wrong: nat
    ghost var recorded: nat

    /** Every recorded prediction is either right or wrong. */
    ghost predicate Valid()
      reads this
    {
      right + wrong == recorded
    }

    /** The derived `Default`: both counters zero. */
    constructor ()
      ensures Valid() && recorded == 0 && right == 0 && wrong == 0
    {
      right, wrong := 0, 0;
      recorded := 0;
    }

    /** `was_right`. */
    method WasRight()
      requires Valid()
      modifies this
      ensures Valid() && recorded == old(recorded) + 1
      ensures right == old(right) + 1 && wrong == old(wrong)
    {
      right := right + 1;
      recorded := recorded + 1;
    }

    /** `was_wrong`. */
    method WasWrong()
      requires Valid()
      modifies this
      ensures Valid() && recorded == old(recorded) + 1
      ensures wrong == old(wrong) + 1 && right == old(right)
    {
      wrong := wrong + 1;
      recorded := recorded + 1;
    }

    /** The integer part of `display`: the accuracy's numerator and
        denominator, the right predictions out of all recorded ones. It changes
        no counter. */
    method Display() returns (numerator: nat, denominator: nat)
      requires Valid()
      ensures denominator == recorded && numerator <= denominator
      ensures numerator == right
    {
      numerator := right;
      denominator := right + wrong;
    }
  }
}
