/** The ID3 decision tree: its nodes, the query that walks them, and the
    recursive training that builds them from encoded columns. */
module Id3Tree {
  import opened Base
  import opened Lib
  import opened Id3Data
  import opened Id3Counter

  /** The entropy of a count table and the number of instances in it. The
      original computes it in `f32` with `log2`; here it is a parameter, and only
      the rule that selects among the scores is modelled. */
  type Score = (Counts, nat) -> real

  /** A tree node. `key` is the code of the parent's split attribute that leads
      to the node; an internal node splits on attribute `category` and answers
      `value` when no child matches. */
  datatype Node =
    | Internal(category: nat, key: u32, value: u32, children: seq<Node>)
    | Leaf(key: u32, value: u32)

  // ---------------------------------------------------------------------------
  // Query
  // ---------------------------------------------------------------------------

  /** `Node::has_key`: both kinds of node compare their own key. */
  predicate HasKey(n: Node, key: u32): (b: bool)
    ensures b <==> match n
                   case Internal(_, k, _, _) => k == key
                   case Leaf(k, _) => k == key
  {
    n.key == key
  }

  /** The first child with key `key`, as `Iterator::find` returns it. */
  function FindChild(children: seq<Node>, key: u32): (r: Option<nat>)
    ensures r.Some? ==> r.value < |children| && HasKey(children[r.value], key)
    ensures r.Some? ==> forall j :: 0 <= j < r.value ==> !HasKey(children[j], key)
    ensures r.None? ==> forall j :: 0 <= j < |children| ==> !HasKey(children[j], key)
  {
    if |children| == 0 then None
    else if HasKey(children[0], key) then Some(0)
    else match FindChild(children[1..], key)
      case None => None
      case Some(i) => Some(i + 1)
  }

  /** `Node::query`: a leaf answers its value; an internal node reads the
      instance's code at its split attribute, descends into the child with that
      key and otherwise answers its own value. Indexing the instance past its
      end panics (here `None`). */
  function QueryNode(n: Node, x: seq<u32>): (r: Option<u32>)
    ensures n.Leaf? ==> r == Some(n.value)
    ensures n.Internal? && n.category >= |x| ==> r.None?
    ensures n.Internal? && n.category < |x| && (forall c :: c in n.children ==> c.key != x[n.category]) ==>
              r == Some(n.value)
    ensures n.Internal? && n.category < |x| && FindChild(n.children, x[n.category]).Some? ==>
              r == QueryNode(n.children[FindChild(n.children, x[n.category]).value], x)
    decreases n
  {
    match n
    case Leaf(_, value) => Some(value)
    case Internal(category, _, value, children) =>
      if category >= |x| then None
      else match FindChild(children, x[category])
        case Some(i) => QueryNode(children[i], x)
        case None => Some(value)
  }

  // ---------------------------------------------------------------------------
  // Specification of training
  // ---------------------------------------------------------------------------

  /** The score of an attribute: the score of the table built from its WHOLE
      column and the whole target column. The instances under consideration
      play no part. */
  function AttrScore(d: ProcessedData, attribute: nat, target: nat, score: Score): real
    requires attribute < |d.data| && target < |d.data|
  {
    var pairs := Zip(d.data[attribute], d.data[target]);
    score(Tally(pairs), |pairs|)
  }

  /** Every attribute of `slice` and the target are columns of `d`. */
  ghost predicate Scorable(d: ProcessedData, slice: seq<nat>, target: nat) {
    target < |d.data| && forall k :: 0 <= k < |slice| ==> slice[k] < |d.data|
  }

  /** `a` sits in `slice` at the first position whose score is minimal, which
      is what `min_by` picks. */
  ghost predicate FirstMinimal(d: ProcessedData, slice: seq<nat>, target: nat, score: Score, a: nat) {
    Scorable(d, slice, target) &&
    exists j :: 0 <= j < |slice| && slice[j] == a &&
      (forall i :: 0 <= i < |slice| ==> AttrScore(d, a, target, score) <= AttrScore(d, slice[i], target, score)) &&
      (forall i :: 0 <= i < j ==> AttrScore(d, slice[i], target, score) > AttrScore(d, a, target, score))
  }

  /** `a` is one of the candidates `avail` and none of them scores lower. */
  ghost predicate BestSplit(d: ProcessedData, target: nat, score: Score, avail: set<nat>, a: nat) {
    target < |d.data| && (forall x :: x in avail ==> x < |d.data|) && a in avail &&
    forall x :: x in avail ==> AttrScore(d, a, target, score) <= AttrScore(d, x, target, score)
  }

  /** Every instance of `s` is below `n`. */
  ghost predicate Within(s: seq<nat>, n: nat) {
    forall k :: 0 <= k < |s| ==> s[k] < n
  }

  /** The instances of `indices` whose code in `column` is `key`, in their
      order in `indices`. */
  function Group(indices: seq<nat>, column: seq<u32>, key: u32): (g: seq<nat>)
    requires Within(indices, |column|)
    ensures |g| <= |indices| && Within(g, |column|)
  {
    if |indices| == 0 then []
    else
      var last := indices[|indices| - 1];
      Group(indices[..|indices| - 1], column, key) + (if column[last] == key then [last] else [])
  }

  /** A group holds exactly the instances with its code. */
  lemma {:induction false} GroupMembers(indices: seq<nat>, column: seq<u32>, key: u32)
    requires Within(indices, |column|)
    ensures forall i :: i in Group(indices, column, key) <==> i in indices && column[i] == key
  {
    if |indices| > 0 {
      var init := indices[..|indices| - 1];
      assert indices == init + [indices[|indices| - 1]];
      GroupMembers(init, column, key);
    }
  }

  /** The codes column `column` takes on the instances `indices`. */
  function KeysOf(indices: seq<nat>, column: seq<u32>): (ks: set<u32>)
    requires Within(indices, |column|)
    ensures forall i :: 0 <= i < |indices| ==> column[indices[i]] in ks
  {
    if |indices| == 0 then {}
    else
      var last := indices[|indices| - 1];
      KeysOf(indices[..|indices| - 1], column) + {column[last]}
  }

  /** The codes taken are exactly the keys whose group is not empty. */
  lemma {:induction false} KeysOfGroups(indices: seq<nat>, column: seq<u32>, k: u32)
    requires Within(indices, |column|)
    ensures k in KeysOf(indices, column) <==> |Group(indices, column, k)| > 0
  {
    if |indices| > 0 {
      KeysOfGroups(indices[..|indices| - 1], column, k);
    }
  }

  /** The instances of `indices` grouped by their code in `column`. */
  function Groups(indices: seq<nat>, column: seq<u32>): map<u32, seq<nat>>
    requires Within(indices, |column|)
  {
    map k | k in KeysOf(indices, column) :: Group(indices, column, k)
  }

  /** The groups partition `indices`: an instance lies in the group of its own
      code, which is present, and in no other group; every group member is an
      instance of `indices`. */
  lemma GroupsPartition(indices: seq<nat>, column: seq<u32>, i: nat)
    requires Within(indices, |column|) && i in indices
    ensures column[i] in Groups(indices, column) && i in Groups(indices, column)[column[i]]
    ensures forall k :: k in Groups(indices, column) && k != column[i] ==> i !in Groups(indices, column)[k]
    ensures forall k, j :: k in Groups(indices, column) && j in Groups(indices, column)[k] ==> j in indices
  {
    var groups := Groups(indices, column);
    GroupMembers(indices, column, column[i]);
    KeysOfGroups(indices, column, column[i]);
    forall k | k in groups
      ensures forall j :: j in groups[k] ==> j in indices && column[j] == k
    {
      GroupMembers(indices, column, k);
    }
  }

  /** The target codes of the instances `g`. */
  function Targets(d: ProcessedData, target: nat, g: seq<nat>): (ts: seq<u32>)
    requires target < |d.data| && Within(g, |d.data[target]|)
    ensures |ts| == |g| && forall k :: 0 <= k < |g| ==> ts[k] == d.data[target][g[k]]
  {
    seq(|g|, k requires 0 <= k < |g| => d.data[target][g[k]])
  }

  /** The attributes held in a prefix of the candidate buffer. */
  function Members(s: seq<nat>): set<nat> {
    set a | a in s
  }

  /** The keys of a list of children. */
  function ChildKeys(children: seq<Node>): set<u32> {
    set c | c in children :: c.key
  }

  /** No two children share a key. */
  ghost predicate KeysDistinct(children: seq<Node>) {
    forall i, j :: 0 <= i < j < |children| ==> children[i].key != children[j].key
  }

  /** The data set is well shaped for training on `indices` with the candidate
      attributes `avail`. */
  ghost predicate Ready(d: ProcessedData, target: nat, indices: seq<nat>, avail: set<nat>) {
    |d.data| > 0 && d.Rectangular() && target < |d.data| &&
    Within(indices, |d.data[0]|) &&
    (forall a :: a in avail ==> a < |d.data|)
  }

  /** Every group is non-empty and ready for training with the candidates
      `rest`. */
  ghost predicate ChildrenReady(d: ProcessedData, target: nat, groups: map<u32, seq<nat>>, rest: set<nat>) {
    forall k :: k in groups ==> |groups[k]| > 0 && Ready(d, target, groups[k], rest)
  }

  /** `n` is what `InternalNode::train` builds for the instances `indices` and
      the candidate attributes `avail`: it splits on a candidate of minimal
      score, and its children fit the groups of `indices` by that attribute. */
  ghost predicate Trained(n: Node, indices: seq<nat>, avail: set<nat>, d: ProcessedData, target: nat, score: Score)
    decreases n, 1
  {
    Ready(d, target, indices, avail) && n.Internal? && BestSplit(d, target, score, avail, n.category) &&
    ChildrenFit(n, Groups(indices, d.data[n.category]), avail - {n.category}, d, target, score)
  }

  /** The children of `n` are one per group, with the group's code as key and
      no key twice, and each fits its group with the candidates `rest`. */
  ghost predicate ChildrenFit(n: Node, groups: map<u32, seq<nat>>, rest: set<nat>, d: ProcessedData,
                              target: nat, score: Score)
    decreases n, 0
  {
    n.Internal? && ChildKeys(n.children) == groups.Keys && KeysDistinct(n.children) &&
    forall c :: c in n.children ==> c.key in groups && ChildFits(c, groups[c.key], rest, d, target, score)
  }

  /** The child built for the non-empty group `g` when `rest` candidates remain:
      a leaf with the majority target when none remain, a leaf with the common
      target when all targets agree, and otherwise an internal node with the
      majority target as fallback, trained on `g` and `rest`. */
  ghost predicate ChildFits(c: Node, g: seq<nat>, rest: set<nat>, d: ProcessedData, target: nat, score: Score)
    decreases c, 2
  {
    Ready(d, target, g, rest) && |g| > 0 &&
    var ts := Targets(d, target, g);
    if rest == {} then
      c.Leaf? && IsOrderedMajority(ts, c.value)
    else if AllEqual(ts) == Some(true) then
      c.Leaf? && c.value == ts[0]
    else
      c.Internal? && IsOrderedMajority(ts, c.value) && Trained(c, g, rest, d, target, score)
  }

  // ---------------------------------------------------------------------------
  // Training
  // ---------------------------------------------------------------------------

  /** The split attribute: scores every candidate of `slice` in order with a
      fresh counter over the whole columns and keeps the first minimum. Answers
      its position in `slice`. */
  method ChooseSplit(d: ProcessedData, slice: seq<nat>, target: nat, score: Score) returns (idx: nat)
    requires |slice| > 0 && Scorable(d, slice, target)
    ensures idx < |slice|
    ensures forall j :: 0 <= j < |slice| ==>
              AttrScore(d, slice[idx], target, score) <= AttrScore(d, slice[j], target, score)
    ensures forall j :: 0 <= j < idx ==>
              AttrScore(d, slice[j], target, score) > AttrScore(d, slice[idx], target, score)
  {
    idx := 0;
    var best: real := 0.0;
    for i := 0 to |slice|
      invariant idx <= i && (i > 0 ==> idx < i)
      invariant i > 0 ==> best == AttrScore(d, slice[idx], target, score)
      invariant forall j :: 0 <= j < i ==> best <= AttrScore(d, slice[j], target, score)
      invariant forall j :: 0 <= j < idx ==> AttrScore(d, slice[j], target, score) > best
    {
      var entropy := ScoreAttribute(d, slice[i], target, score);
      if i == 0 || entropy < best {
        idx, best := i, entropy;
      }
    }
  }

  /** The key `min_by` compares: a fresh counter fed the pairs of the
      attribute's and the target's columns, then scored. */
  method ScoreAttribute(d: ProcessedData, attribute: nat, target: nat, score: Score) returns (e: real)
    requires attribute < |d.data| && target < |d.data|
    ensures e == AttrScore(d, attribute, target, score)
  {
    var counter := TallyColumns(d.data[attribute], d.data[target]);
    e := score(counter.counts, counter.len);
  }

  /** The split attribute `slice[idx]` chosen by `ChooseSplit` is the first
      minimum of the scores and no candidate scores lower. */
  lemma ChosenSplit(d: ProcessedData, slice: seq<nat>, target: nat, score: Score, idx: nat)
    requires idx < |slice| && Scorable(d, slice, target)
    requires forall j :: 0 <= j < |slice| ==>
               AttrScore(d, slice[idx], target, score) <= AttrScore(d, slice[j], target, score)
    requires forall j :: 0 <= j < idx ==>
               AttrScore(d, slice[j], target, score) > AttrScore(d, slice[idx], target, score)
    ensures FirstMinimal(d, slice, target, score, slice[idx])
    ensures BestSplit(d, target, score, Members(slice), slice[idx])
  {
  }

  /** The children map of the training step: each instance of `indices` is
      appended to the group of its code in `column`. */
  method GroupBy(indices: seq<nat>, column: seq<u32>) returns (groups: map<u32, seq<nat>>)
    requires Within(indices, |column|)
    ensures groups == Groups(indices, column)
  {
    groups := map[];
    for i := 0 to |indices|
      invariant groups == Groups(indices[..i], column)
    {
      var index := indices[i];
      var code := column[index];
      assert indices[..i + 1] == indices[..i] + [index];
      GroupByStep(indices[..i], index, column);
      if code in groups {
        groups := groups[code := groups[code] + [index]];
      } else {
        groups := groups[code := [index]];
      }
    }
    assert indices[..|indices|] == indices;
  }

  /** One step of `GroupBy`: appending instance `x` to the group of its code
      turns the groups of `pre` into the groups of `pre + [x]`. */
  lemma GroupByStep(pre: seq<nat>, x: nat, column: seq<u32>)
    requires Within(pre, |column|) && x < |column|
    ensures Within(pre + [x], |column|)
    ensures var groups := Groups(pre, column);
            Groups(pre + [x], column) ==
              groups[column[x] := if column[x] in groups then groups[column[x]] + [x] else [x]]
  {
    var ext := pre + [x];
    assert ext[..|pre|] == pre;
    var groups := Groups(pre, column);
    var next := groups[column[x] := if column[x] in groups then groups[column[x]] + [x] else [x]];
    if column[x] !in groups {
      KeysOfGroups(pre, column, column[x]);
    }
    assert Groups(ext, column).Keys == next.Keys;
    forall k | k in next
      ensures Groups(ext, column)[k] == next[k]
    {
      assert Group(ext, column, k) == Group(pre, column, k) + (if column[x] == k then [x] else []);
    }
  }

  /** The choice of split and the grouping, before the candidates change: the
      position of the split attribute in `slice` and the non-empty groups of
      `indices` by its codes. */
  method PickSplit(d: ProcessedData, indices: seq<nat>, slice: seq<nat>, target: nat, score: Score)
      returns (idx: nat, groups: map<u32, seq<nat>>)
    requires |slice| > 0 && Ready(d, target, indices, Members(slice))
    ensures idx < |slice| && slice[idx] < |d.data|
    ensures FirstMinimal(d, slice, target, score, slice[idx])
    ensures BestSplit(d, target, score, Members(slice), slice[idx])
    ensures groups == Groups(indices, d.data[slice[idx]])
    ensures forall k :: k in groups ==> |groups[k]| > 0 && Within(groups[k], |d.data[0]|)
  {
    assert forall k :: 0 <= k < |slice| ==> slice[k] in Members(slice);
    idx := ChooseSplit(d, slice, target, score);
    ChosenSplit(d, slice, target, score, idx);
    var column := d.data[slice[idx]];
    groups := GroupBy(indices, column);
    forall k | k in groups
      ensures |groups[k]| > 0
    {
      KeysOfGroups(indices, column, k);
    }
  }

  /** The first half of the training step: picks the split attribute, groups
      `indices` by its codes and moves it out of the candidate prefix with
      `swap_remove`, to position `len - 1`. */
  method SplitOn(d: ProcessedData, indices: seq<nat>, attrs: array<nat>, len: nat, target: nat, score: Score)
      returns (attribute: nat, groups: map<u32, seq<nat>>)
    requires |indices| > 0
    requires 0 < len <= attrs.Length && Distinct(attrs[..len])
    requires Ready(d, target, indices, Members(attrs[..len]))
    modifies attrs
    ensures FirstMinimal(d, old(attrs[..len]), target, score, attribute)
    ensures BestSplit(d, target, score, Members(old(attrs[..len])), attribute)
    ensures groups == Groups(indices, d.data[attribute])
    ensures Distinct(attrs[..len - 1]) && Members(attrs[..len - 1]) == Members(old(attrs[..len])) - {attribute}
    ensures ChildrenReady(d, target, groups, Members(attrs[..len - 1]))
    ensures multiset(attrs[..len - 1]) + multiset{attribute} == multiset(old(attrs[..len]))
    ensures attrs[len - 1] == attribute
    ensures forall i :: len <= i < attrs.Length ==> attrs[i] == old(attrs[i])
  {
    ghost var slice := attrs[..len];
    var idx;
    idx, groups := PickSplit(d, indices, attrs[..len], target, score);
    attribute := attrs[idx];
    var shorter := SwapRemove(attrs, len, idx);
    RemovedCandidate(slice, idx, attrs[..len - 1]);
    GroupsReady(d, target, groups, Members(slice), Members(attrs[..len - 1]));
  }

  /** `InternalNode::train` on the instances `indices`, with the candidate
      attributes in the prefix `attrs[..len]` of the buffer shared with the
      caller. The chosen attribute is taken out with `swap_remove`, and every
      child is trained on the same shorter prefix; each permutes it in place, so
      a sibling may see the candidates in another order. The children come in
      the unspecified iteration order of a hash map. */
  method TrainInternal(d: ProcessedData, indices: seq<nat>, attrs: array<nat>, len: nat,
                       target: nat, score: Score, key: u32, value: u32) returns (n: Node)
    requires |indices| > 0
    requires 0 < len <= attrs.Length && Distinct(attrs[..len])
    requires Ready(d, target, indices, Members(attrs[..len]))
    modifies attrs
    ensures n.Internal? && n.key == key && n.value == value
    ensures FirstMinimal(d, old(attrs[..len]), target, score, n.category)
    ensures Trained(n, indices, Members(old(attrs[..len])), d, target, score)
    ensures multiset(attrs[..len]) == multiset(old(attrs[..len]))
    ensures forall i :: len <= i < attrs.Length ==> attrs[i] == old(attrs[i])
    decreases len, 0
  {
    ghost var avail := Members(attrs[..len]);
    var attribute, groups := SplitOn(d, indices, attrs, len, target, score);
    ghost var rest := Members(attrs[..len - 1]);
    var children := TrainChildren(d, groups, attrs, len - 1, target, score);
    n := Internal(attribute, key, value, children);
    TrainedIntro(n, indices, avail, rest, d, target, score, groups);
    assert attrs[..len] == attrs[..len - 1] + [attribute];
  }

  /** The children of the training step: one per group, in the unspecified
      iteration order of the hash map `groups`, each trained with the
      candidates `attrs[..len]`. */
  method TrainChildren(d: ProcessedData, groups: map<u32, seq<nat>>, attrs: array<nat>, len: nat,
                       target: nat, score: Score) returns (children: seq<Node>)
    requires len <= attrs.Length && Distinct(attrs[..len])
    requires ChildrenReady(d, target, groups, Members(attrs[..len]))
    modifies attrs
    ensures ChildrenFit(Internal(0, 0, 0, children), groups, Members(old(attrs[..len])), d, target, score)
    ensures multiset(attrs[..len]) == multiset(old(attrs[..len]))
    ensures forall i :: len <= i < attrs.Length ==> attrs[i] == old(attrs[i])
    decreases len, 2
  {
    ghost var start := attrs[..len];
    ghost var rest := Members(start);
    children := [];
    var pending := groups.Keys;
    while pending != {}
      invariant pending <= groups.Keys
      invariant ChildKeys(children) == groups.Keys - pending
      invariant KeysDistinct(children)
      invariant forall c :: c in children ==> c.key in groups && ChildFits(c, groups[c.key], rest, d, target, score)
      invariant multiset(attrs[..len]) == multiset(start)
      invariant forall i :: len <= i < attrs.Length ==> attrs[i] == old(attrs[i])
      decreases pending
    {
      var k :| k in pending;
      PermutedCandidates(start, attrs[..len]);
      var child := TrainChild(d, groups[k], attrs, len, target, score, k);
      AppendChild(children, child);
      MoveKey(groups.Keys, pending, k);
      children := children + [child];
      pending := pending - {k};
    }
  }

  /** One child of the training step, built for the non-empty group `g` with
      the candidates `attrs[..len]` that remain. */
  method TrainChild(d: ProcessedData, g: seq<nat>, attrs: array<nat>, len: nat,
                    target: nat, score: Score, key: u32) returns (child: Node)
    requires |g| > 0
    requires len <= attrs.Length && Distinct(attrs[..len])
    requires Ready(d, target, g, Members(attrs[..len]))
    modifies attrs
    ensures child.key == key
    ensures ChildFits(child, g, Members(old(attrs[..len])), d, target, score)
    ensures multiset(attrs[..len]) == multiset(old(attrs[..len]))
    ensures forall i :: len <= i < attrs.Length ==> attrs[i] == old(attrs[i])
    decreases len, 1
  {
    var ts := Targets(d, target, g);
    if len == 0 {
      assert Members(attrs[..len]) == {};
      var vote := MajorityVoteOrdered(ts);
      child := Leaf(key, vote.value);
    } else {
      assert attrs[0] in Members(attrs[..len]);
      if AllEqual(ts) == Some(true) {
        child := Leaf(key, ts[0]);
      } else {
        var vote := MajorityVoteOrdered(ts);
        child := TrainInternal(d, g, attrs, len, target, score, key, vote.value);
      }
    }
  }

  // ---------------------------------------------------------------------------
  // Proof steps of training
  // ---------------------------------------------------------------------------

  /** The parts of `Trained`, assembled from what the training step computes. */
  lemma TrainedIntro(n: Node, indices: seq<nat>, avail: set<nat>, rest: set<nat>, d: ProcessedData,
                     target: nat, score: Score, groups: map<u32, seq<nat>>)
    requires Ready(d, target, indices, avail) && n.Internal?
    requires BestSplit(d, target, score, avail, n.category)
    requires groups == Groups(indices, d.data[n.category])
    requires rest == avail - {n.category}
    requires ChildrenFit(Internal(0, 0, 0, n.children), groups, rest, d, target, score)
    ensures Trained(n, indices, avail, d, target, score)
  {
  }

  /** Every group is ready for training with the smaller candidate set. */
  lemma GroupsReady(d: ProcessedData, target: nat, groups: map<u32, seq<nat>>, avail: set<nat>, rest: set<nat>)
    requires |d.data| > 0 && d.Rectangular() && target < |d.data|
    requires forall a :: a in avail ==> a < |d.data|
    requires rest <= avail
    requires forall k :: k in groups ==> |groups[k]| > 0 && Within(groups[k], |d.data[0]|)
    ensures ChildrenReady(d, target, groups, rest)
  {
  }

  /** Appending a child adds its key, and keeps the keys distinct when the key
      is new. */
  lemma AppendChild(children: seq<Node>, child: Node)
    ensures ChildKeys(children + [child]) == ChildKeys(children) + {child.key}
    ensures KeysDistinct(children) && child.key !in ChildKeys(children) ==>
              KeysDistinct(children + [child])
  {
    var all := children + [child];
    assert forall i :: 0 <= i < |children| ==> children[i] in children;
    assert forall c :: c in all <==> c in children || c == child;
  }

  /** Moving `k` from the pending keys to the done keys. */
  lemma MoveKey(all: set<u32>, pending: set<u32>, k: u32)
    requires pending <= all && k in pending
    ensures (all - pending) + {k} == all - (pending - {k})
    ensures pending - {k} <= all
  {
  }

  /** The candidates left after removing position `idx`: free of repetitions,
      and exactly the old candidates but the removed one. */
  lemma RemovedCandidate(slice: seq<nat>, idx: nat, shorter: seq<nat>)
    requires idx < |slice| && Distinct(slice) && shorter == SwapRemoved(slice, idx)
    ensures Distinct(shorter)
    ensures Members(shorter) == Members(slice) - {slice[idx]}
    ensures multiset(shorter) + multiset{slice[idx]} == multiset(slice)
  {
    SwapRemovedDistinct(slice, idx);
    SwapRemovedMultiset(slice, idx);
  }

  /** A rearrangement of the candidates holds the same candidates. */
  lemma PermutedCandidates(a: seq<nat>, b: seq<nat>)
    requires Distinct(a) && multiset(a) == multiset(b)
    ensures Distinct(b) && Members(b) == Members(a)
  {
    DistinctPermuted(a, b);
    forall x
      ensures x in b <==> x in a
    {
      assert x in b <==> x in multiset(b);
      assert x in a <==> x in multiset(a);
    }
  }

  // ---------------------------------------------------------------------------
  // Properties of trained trees
  // ---------------------------------------------------------------------------

  /** Every internal node splits on a candidate of `avail` that no internal
      node above it has used. */
  ghost predicate SplitsWithin(n: Node, avail: set<nat>)
    decreases n
  {
    n.Internal? ==>
      n.category in avail && forall c :: c in n.children ==> SplitsWithin(c, avail - {n.category})
  }

  /** No attribute is split on twice along a path, nor is any of `used`. */
  ghost predicate PathDistinct(n: Node, used: set<nat>)
    decreases n
  {
    n.Internal? ==>
      n.category !in used && forall c :: c in n.children ==> PathDistinct(c, used + {n.category})
  }

  /** No path holds more than `k` internal nodes. */
  ghost predicate DepthAtMost(n: Node, k: nat)
    decreases n
  {
    n.Internal? ==> k > 0 && forall c :: c in n.children ==> DepthAtMost(c, k - 1)
  }

  /** The target code of some instance of `indices` is `v`. */
  ghost predicate TargetOf(d: ProcessedData, target: nat, indices: seq<nat>, v: u32) {
    exists i :: i in indices && target < |d.data| && i < |d.data[target]| && d.data[target][i] == v
  }

  /** A trained node splits only on its candidates, each at most once per path. */
  lemma {:induction false} TrainedSplitsWithin(n: Node, indices: seq<nat>, avail: set<nat>, d: ProcessedData,
                                               target: nat, score: Score)
    requires Trained(n, indices, avail, d, target, score)
    ensures SplitsWithin(n, avail)
    decreases n
  {
    var groups := Groups(indices, d.data[n.category]);
    var rest := avail - {n.category};
    forall c | c in n.children
      ensures SplitsWithin(c, rest)
    {
      assert ChildFits(c, groups[c.key], rest, d, target, score);
      if c.Internal? {
        TrainedSplitsWithin(c, groups[c.key], rest, d, target, score);
      }
    }
  }

  /** Splitting within candidates disjoint from `used` repeats no attribute. */
  lemma {:induction false} SplitsWithinDistinct(n: Node, avail: set<nat>, used: set<nat>)
    requires SplitsWithin(n, avail) && avail !! used
    ensures PathDistinct(n, used)
    decreases n
  {
    if n.Internal? {
      forall c | c in n.children
        ensures PathDistinct(c, used + {n.category})
      {
        SplitsWithinDistinct(c, avail - {n.category}, used + {n.category});
      }
    }
  }

  /** Splitting within `avail` bounds the depth by the number of candidates. */
  lemma {:induction false} SplitsWithinDepth(n: Node, avail: set<nat>)
    requires SplitsWithin(n, avail)
    ensures DepthAtMost(n, |avail|)
    decreases n
  {
    if n.Internal? {
      var rest := avail - {n.category};
      assert |rest| == |avail| - 1;
      forall c | c in n.children
        ensures DepthAtMost(c, |avail| - 1)
      {
        SplitsWithinDepth(c, rest);
      }
    }
  }

  /** A value among the targets of `g` is the target of an instance of `g`. */
  lemma TargetsHaveInstance(d: ProcessedData, target: nat, g: seq<nat>, v: u32)
    requires target < |d.data| && Within(g, |d.data[target]|) && v in Targets(d, target, g)
    ensures TargetOf(d, target, g, v)
  {
    var ts := Targets(d, target, g);
    var k :| 0 <= k < |ts| && ts[k] == v;
    assert g[k] in g;
  }

  /** Every child of a trained node answers a target code of its own group. */
  lemma ChildValueIsTarget(c: Node, g: seq<nat>, rest: set<nat>, d: ProcessedData, target: nat, score: Score)
    requires ChildFits(c, g, rest, d, target, score)
    ensures TargetOf(d, target, g, c.value)
  {
    var ts := Targets(d, target, g);
    if rest != {} && AllEqual(ts) == Some(true) {
      assert ts[0] in ts;
    }
    TargetsHaveInstance(d, target, g, c.value);
  }

  /** Querying a trained node with an instance that has every candidate
      attribute always answers, and answers the target code of one of the
      training instances, provided the node's own fallback is one. */
  lemma {:induction false} QueryAnswersTraining(n: Node, indices: seq<nat>, avail: set<nat>, d: ProcessedData,
                                                target: nat, score: Score, x: seq<u32>)
    requires Trained(n, indices, avail, d, target, score)
    requires TargetOf(d, target, indices, n.value)
    requires forall a :: a in avail ==> a < |x|
    ensures QueryNode(n, x).Some? && TargetOf(d, target, indices, QueryNode(n, x).value)
    decreases n
  {
    var column := d.data[n.category];
    var groups := Groups(indices, column);
    var rest := avail - {n.category};
    match FindChild(n.children, x[n.category])
    case None =>
    case Some(i) =>
      var c := n.children[i];
      assert c in n.children;
      var g := groups[c.key];
      assert ChildFits(c, g, rest, d, target, score);
      GroupMembers(indices, column, c.key);
      ChildValueIsTarget(c, g, rest, d, target, score);
      if c.Internal? {
        QueryAnswersTraining(c, g, rest, d, target, score, x);
      }
      assert QueryNode(n, x) == QueryNode(c, x);
      var v := QueryNode(c, x).value;
      var w :| w in g && w < |d.data[target]| && d.data[target][w] == v;
      assert w in indices;
  }

  /** When every group of the split attribute has a single target code, as
      when the attribute determines the target, every child is a leaf that
      answers its group's target code. */
  lemma PureGroupsMakeLeaves(n: Node, indices: seq<nat>, avail: set<nat>, d: ProcessedData, target: nat, score: Score)
    requires Trained(n, indices, avail, d, target, score)
    requires forall k :: k in Groups(indices, d.data[n.category]) ==>
               AllEqual(Targets(d, target, Groups(indices, d.data[n.category])[k])) == Some(true)
    ensures forall c :: c in n.children ==>
              c.Leaf? && c.key in Groups(indices, d.data[n.category]) &&
              (forall i :: i in Groups(indices, d.data[n.category])[c.key] ==> d.data[target][i] == c.value)
  {
    var groups := Groups(indices, d.data[n.category]);
    var rest := avail - {n.category};
    forall c | c in n.children
      ensures c.Leaf? && c.key in groups && forall i :: i in groups[c.key] ==> d.data[target][i] == c.value
    {
      var g := groups[c.key];
      var ts := Targets(d, target, g);
      assert ChildFits(c, g, rest, d, target, score);
      assert c.value in ts by {
        if rest != {} {
          assert ts[0] in ts;
        }
      }
      forall i | i in g
        ensures d.data[target][i] == c.value
      {
        var k :| 0 <= k < |g| && g[k] == i;
        var j :| 0 <= j < |ts| && ts[j] == c.value;
        assert ts[k] == ts[0] == ts[j];
      }
    }
  }
}
