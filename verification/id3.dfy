/** The classifier object: a root node that training overwrites in place and
    that queries walk down. */
module Id3 {
  import opened Base
  import opened Lib
  import opened Id3Data
  import opened Id3Tree

  /** The ways `ID3::train` panics, in the order it meets them. */
  datatype TrainError =
    | NoColumns          // `data_len` indexes the first column of an empty data set
    | EmptyDataset       // the root majority vote has nothing to count
    | TargetOutOfBounds  // every target lookup fails, and the vote's result is unwrapped
    | NoAttributes       // `min_by` finds no candidate besides the target

  /** The instance positions `0..n`. */
  function Range(n: nat): (r: seq<nat>)
    ensures |r| == n && forall i :: 0 <= i < n ==> r[i] == i
  {
    seq(n, i requires 0 <= i < n => i)
  }

  /** The columns `0..n` except `target`, in ascending order. */
  function AllBut(n: nat, target: nat): (r: seq<nat>)
    ensures forall a: nat :: a in r <==> a < n && a != target
    ensures |r| == if target < n then n - 1 else n
    ensures forall i, j :: 0 <= i < j < |r| ==> r[i] < r[j]
  {
    if n == 0 then []
    else
      var pre := AllBut(n - 1, target);
      assert forall i :: 0 <= i < |pre| ==> pre[i] in pre;
      pre + (if n - 1 == target then [] else [n - 1])
  }

  /** Ascending columns are free of repetitions. */
  lemma AllButDistinct(n: nat, target: nat)
    ensures Distinct(AllBut(n, target))
  {
  }

  class ID3 {
    var root: Node

    /** The root is always an internal node. */
    ghost predicate Valid()
      reads this
    {
      root.Internal?
    }

    /** An untrained classifier: an internal root with no children and every
        field zero, so every query answers `0`. */
    constructor ()
      ensures Valid() && root == Internal(0, 0, 0, [])
    {
      root := Internal(0, 0, 0, []);
    }

    /** `ID3::train` on the columns `d` with the target column `target`. The
        root keeps its key, its fallback becomes the greatest most frequent
        target code, and it is trained on every instance with every column but
        the target as candidate. A panic comes back as the matching error; the
        last one strikes after the fallback has been written. */
    method Train(d: ProcessedData, target: nat, score: Score) returns (r: Result<(), TrainError>)
      requires Valid() && d.Rectangular()
      modifies this
      ensures Valid()
      ensures r == Err(NoColumns) <==> |d.data| == 0
      ensures r == Err(EmptyDataset) <==> |d.data| > 0 && |d.data[0]| == 0
      ensures r == Err(TargetOutOfBounds) <==> |d.data| > 0 && |d.data[0]| > 0 && target >= |d.data|
      ensures r == Err(NoAttributes) <==> |d.data| == 1 && |d.data[0]| > 0 && target == 0
      ensures r.Err? && r.error != NoAttributes ==> root == old(root)
      ensures r == Err(NoAttributes) ==>
                root == old(root).(value := root.value) && IsOrderedMajority(d.data[target], root.value)
      ensures r.Ok? ==> root.key == old(root.key) && IsOrderedMajority(d.data[target], root.value)
      ensures r.Ok? ==> Trained(root, Range(|d.data[0]|), Members(AllBut(|d.data|, target)), d, target, score)
      ensures r.Ok? ==> FirstMinimal(d, AllBut(|d.data|, target), target, score, root.category)
    {
      if |d.data| == 0 {
        return Err(NoColumns);
      }
      var dataLen := |d.data[0]|;
      if dataLen == 0 {
        return Err(EmptyDataset);
      }
      if target >= |d.data| {
        return Err(TargetOutOfBounds);
      }
      var majority := MajorityVoteOrdered(d.data[target]);
      root := root.(value := majority.value);
      var indices := Range(dataLen);
      var attributes := AllBut(|d.data|, target);
      if |attributes| == 0 {
        return Err(NoAttributes);
      }
      var buffer := new nat[|attributes|](i requires 0 <= i < |attributes| => attributes[i]);
      assert buffer[..|attributes|] == attributes;
      AllButDistinct(|d.data|, target);
      root := TrainInternal(d, indices, buffer, |attributes|, target, score, root.key, root.value);
      r := Ok(());
    }

    /** `ID3::query`: the answer of the root for the instance `x`. */
    function Query(x: seq<u32>): Option<u32>
      reads this
    {
      QueryNode(root, x)
    }
  }

  /** A root trained by `ID3::train` never splits on the target, splits on no
      column twice along a path, and is no deeper than the number of other
      columns. */
  lemma TrainedRootShape(root: Node, d: ProcessedData, target: nat, score: Score)
    requires |d.data| > 0 && |d.data[0]| > 0 && target < |d.data|
    requires Trained(root, Range(|d.data[0]|), Members(AllBut(|d.data|, target)), d, target, score)
    ensures WellShaped(root, |d.data|, target)
  {
    TrainedSplitsWithin(root, Range(|d.data[0]|), Members(AllBut(|d.data|, target)), d, target, score);
    ShapeOfSplits(root, |d.data|, target);
  }

  /** No path splits on `target` or on any column twice, and none holds more
      than `n - 1` internal nodes. */
  ghost predicate WellShaped(root: Node, n: nat, target: nat) {
    PathDistinct(root, {target}) && n > 0 && DepthAtMost(root, n - 1)
  }

  /** A tree splitting within the columns `0..n` other than `target` is well
      shaped. */
  lemma ShapeOfSplits(root: Node, n: nat, target: nat)
    requires target < n && SplitsWithin(root, Members(AllBut(n, target)))
    ensures WellShaped(root, n, target)
  {
    var avail := Members(AllBut(n, target));
    MembersSize(AllBut(n, target));
    SplitsWithinDistinct(root, avail, {target});
    SplitsWithinDepth(root, avail);
    DepthMonotone(root, |avail|, n - 1);
  }

  /** A root trained by `ID3::train` answers every instance with a value for
      each column, and its answer is a target code occurring in the training
      data. */
  lemma TrainedRootAnswers(root: Node, d: ProcessedData, target: nat, score: Score, x: seq<u32>)
    requires |d.data| > 0 && |d.data[0]| > 0 && target < |d.data|
    requires Trained(root, Range(|d.data[0]|), Members(AllBut(|d.data|, target)), d, target, score)
    requires IsOrderedMajority(d.data[target], root.value)
    requires |x| == |d.data|
    ensures QueryNode(root, x).Some? && QueryNode(root, x).value in d.data[target]
  {
    var indices := Range(|d.data[0]|);
    var k :| 0 <= k < |d.data[target]| && d.data[target][k] == root.value;
    assert d.Rectangular();
    assert k in indices by {
      assert indices[k] == k;
    }
    QueryAnswersTraining(root, indices, Members(AllBut(|d.data|, target)), d, target, score, x);
  }

  /** A sequence has no more distinct elements than positions. */
  lemma {:induction false} MembersSize(s: seq<nat>)
    ensures |Members(s)| <= |s|
  {
    if s != [] {
      MembersSize(s[..|s| - 1]);
      assert Members(s) == Members(s[..|s| - 1]) + {s[|s| - 1]};
    }
  }

  /** A depth bound may be loosened. */
  lemma {:induction false} DepthMonotone(n: Node, k: nat, m: nat)
    requires DepthAtMost(n, k) && k <= m
    ensures DepthAtMost(n, m)
    decreases n
  {
    if n.Internal? {
      forall c | c in n.children
        ensures DepthAtMost(c, m - 1)
      {
        DepthMonotone(c, k - 1, m - 1);
      }
    }
  }
}
