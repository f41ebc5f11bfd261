/** The generic helpers of the crate root: removing an element from a slice by
    swapping it to the end, testing that all elements are equal, and the two
    majority votes. */
module Lib {
  import opened Base

  // ---------------------------------------------------------------------------
  // swap_remove
  // ---------------------------------------------------------------------------

  /** The slice `swap_remove` hands back for a slice `s`: one element shorter,
      with position `index` now holding what was the last element. */
  function SwapRemoved<T>(s: seq<T>, index: nat): (r: seq<T>)
    requires index < |s|
    ensures |r| == |s| - 1
    ensures index < |s| - 1 ==> r[index] == s[|s| - 1]
    ensures forall j :: 0 <= j < |r| && j != index ==> r[j] == s[j]
  {
    s[index := s[|s| - 1]][..|s| - 1]
  }

  /** Nothing is lost: the returned slice and the removed element together are
      the old slice. */
  lemma SwapRemovedMultiset<T>(s: seq<T>, index: nat)
    requires index < |s|
    ensures multiset(SwapRemoved(s, index)) + multiset{s[index]} == multiset(s)
  {
    var last := |s| - 1;
    var r := SwapRemoved(s, index);
    if index == last {
      assert s == r + [s[last]];
    } else {
      assert s == s[..index] + [s[index]] + s[index + 1..last] + [s[last]];
      assert r == s[..index] + [s[last]] + s[index + 1..last];
    }
  }

  /** No element occurs twice. */
  ghost predicate Distinct<T>(s: seq<T>) {
    forall i, j :: 0 <= i < j < |s| ==> s[i] != s[j]
  }

  /** Without repetitions every element occurs exactly once. */
  lemma {:induction false} DistinctOnce<T>(s: seq<T>, x: T)
    requires Distinct(s) && x in s
    ensures multiset(s)[x] == 1
  {
    assert s == [s[0]] + s[1..];
    if s[0] == x {
      assert x !in s[1..];
    } else {
      DistinctOnce(s[1..], x);
    }
  }

  /** An element at two positions occurs at least twice. */
  lemma TwiceCounted<T>(s: seq<T>, i: nat, j: nat)
    requires i < j < |s| && s[i] == s[j]
    ensures multiset(s)[s[i]] >= 2
  {
    assert s == s[..i] + [s[i]] + s[i + 1..j] + [s[j]] + s[j + 1..];
  }

  /** Rearranging a slice without repetitions leaves it without repetitions. */
  lemma DistinctPermuted<T>(a: seq<T>, b: seq<T>)
    requires Distinct(a) && multiset(a) == multiset(b)
    ensures Distinct(b)
  {
    forall i, j | 0 <= i < j < |b|
      ensures b[i] != b[j]
    {
      if b[i] == b[j] {
        TwiceCounted(b, i, j);
        assert b[i] in multiset(a);
        DistinctOnce(a, b[i]);
      }
    }
  }

  /** On a slice without repetitions, `swap_remove` removes exactly the element at
      `index` and keeps the rest free of repetitions. */
  lemma SwapRemovedDistinct<T>(s: seq<T>, index: nat)
    requires index < |s| && Distinct(s)
    ensures Distinct(SwapRemoved(s, index))
    ensures forall x :: x in SwapRemoved(s, index) <==> x in s && x != s[index]
  {
    var r := SwapRemoved(s, index);
    var last := |s| - 1;
    // position in `s` that each position of `r` was taken from
    var from := (j: nat) => if j == index then last else j;
    assert forall j :: 0 <= j < |r| ==> from(j) < |s| && r[j] == s[from(j)] && from(j) != index;
    forall x | x in s && x != s[index]
      ensures x in r
    {
      var k :| 0 <= k < |s| && s[k] == x;
      if k == last {
        assert r[index] == x;
      } else {
        assert r[k] == x;
      }
    }
  }

  /** `swap_remove` on the prefix `data[..len]` of a buffer. It exchanges
      `data[index]` with `data[len - 1]` in place and answers the length of the
      shorter prefix; the removed element stays in the buffer at `len - 1`. It
      panics (here `None`) on an empty slice or an index past its end. */
  method SwapRemove<T>(data: array<T>, len: nat, index: nat) returns (r: Option<nat>)
    requires len <= data.Length
    modifies data
    ensures r.None? <==> len == 0 || index >= len
    ensures r.None? ==> data[..] == old(data[..])
    ensures r.Some? ==> r.value == len - 1
    ensures r.Some? ==> data[..] == old(data[..])[index := old(data[len - 1])][len - 1 := old(data[index])]
    ensures r.Some? ==> data[..len - 1] == SwapRemoved(old(data[..len]), index)
    ensures multiset(data[..]) == old(multiset(data[..]))
  {
    if len == 0 || index >= len {
      return None;
    }
    data[index], data[len - 1] := data[len - 1], data[index];
    r := Some(len - 1);
  }

  // ---------------------------------------------------------------------------
  // all_equal
  // ---------------------------------------------------------------------------

  /** True when every element of `s` equals `first`. */
  function AllMatch<T(==)>(s: seq<T>, first: T): (b: bool)
    ensures b <==> forall i :: 0 <= i < |s| ==> s[i] == first
  {
    if |s| == 0 then true else s[0] == first && AllMatch(s[1..], first)
  }

  /** `all_equal`: whether every element equals the first one; it panics (here
      `None`) on an empty sequence, which has no first element. */
  function AllEqual<T(==)>(s: seq<T>): (r: Option<bool>)
    ensures r.None? <==> |s| == 0
    ensures r.Some? ==> (r.value <==> forall i :: 0 <= i < |s| ==> s[i] == s[0])
  {
    if |s| == 0 then None else Some(AllMatch(s[1..], s[0]))
  }

  // ---------------------------------------------------------------------------
  // Majority votes
  // ---------------------------------------------------------------------------

  /** `v` occurs in `s` and no element occurs more often. */
  ghost predicate IsMajority<T>(s: seq<T>, v: T) {
    v in s && forall w :: w in s ==> multiset(s)[w] <= multiset(s)[v]
  }

  /** `v` is a majority element of `s` and the greatest of those that occur
      equally often. */
  ghost predicate IsOrderedMajority(s: seq<u32>, v: u32) {
    IsMajority(s, v) && forall w :: w in s && multiset(s)[w] == multiset(s)[v] ==> w <= v
  }

  /** There is at most one ordered majority. */
  lemma OrderedMajorityUnique(s: seq<u32>, v: u32, w: u32)
    requires IsOrderedMajority(s, v) && IsOrderedMajority(s, w)
    ensures v == w
  {
  }

  /** The tie in `[1, 1, 2, 2, 3]` goes to the greater of the two most frequent
      values. */
  lemma OrderedMajorityExample()
    ensures IsOrderedMajority([1, 1, 2, 2, 3], 2)
  {
    var s: seq<u32> := [1, 1, 2, 2, 3];
    assert multiset(s)[1] == 2 && multiset(s)[2] == 2 && multiset(s)[3] == 1;
    forall w | w in s
      ensures multiset(s)[w] <= multiset(s)[2] && (multiset(s)[w] == multiset(s)[2] ==> w <= 2)
    {
      assert w == 1 || w == 2 || w == 3;
    }
  }

  /** The counting loop both votes share: one entry per distinct element,
      holding how often it occurs. */
  method CountVotes<T(==)>(s: seq<T>) returns (counts: map<T, nat>)
    ensures forall x :: x in counts <==> x in s
    ensures forall x :: x in counts ==> counts[x] == multiset(s)[x]
  {
    counts := map[];
    for i := 0 to |s|
      invariant forall x :: x in counts <==> x in s[..i]
      invariant forall x :: x in counts ==> counts[x] == multiset(s[..i])[x]
    {
      var e := s[i];
      if e in counts {
        counts := counts[e := counts[e] + 1];
      } else {
        counts := counts[e := 1];
      }
      assert s[..i + 1] == s[..i] + [e];
    }
    assert s[..|s|] == s;
  }

  /** The least element of a non-empty set of codes. */
  function MinKey(keys: set<u32>): (k: u32)
    requires keys != {}
    ensures k in keys && forall j :: j in keys ==> k <= j
  {
    MinExists(keys);
    var k :| k in keys && forall j :: j in keys ==> k <= j; k
  }

  lemma MinExists(keys: set<u32>)
    requires keys != {}
    ensures exists k :: k in keys && forall j :: j in keys ==> k <= j
  {
    var m := MinWitness(keys);
  }

  lemma MinWitness(keys: set<u32>) returns (m: u32)
    requires keys != {}
    ensures m in keys && forall j :: j in keys ==> m <= j
    decreases |keys|
  {
    var x :| x in keys;
    if keys == {x} {
      return x;
    }
    var rest := MinWitness(keys - {x});
    m := if x < rest then x else rest;
    forall j | j in keys
      ensures m <= j
    {
      if j != x {
        assert j in keys - {x};
      }
    }
  }

  /** `majority_vote_ordered`: counts in an ordered map, then walks its keys in
      ascending order keeping the last key whose count is at least the best so
      far, so a tie goes to the greatest key. It panics (here `None`) on empty
      input. */
  method MajorityVoteOrdered(s: seq<u32>) returns (r: Option<u32>)
    ensures r.None? <==> |s| == 0
    ensures r.Some? ==> IsOrderedMajority(s, r.value)
  {
    var counts := CountVotes(s);
    var pending := counts.Keys;
    var best: Option<u32> := None;
    while pending != {}
      invariant pending <= counts.Keys
      invariant forall k, p :: k in counts && k !in pending && p in pending ==> k < p
      invariant best.None? <==> pending == counts.Keys
      invariant best.Some? ==> best.value in counts && best.value !in pending
      invariant best.Some? ==> forall k :: k in counts && k !in pending ==>
                  counts[k] <= counts[best.value] && (counts[k] == counts[best.value] ==> k <= best.value)
      decreases pending
    {
      var k := MinKey(pending);
      if best.None? || counts[k] >= counts[best.value] {
        best := Some(k);
      }
      pending := pending - {k};
    }
    if |s| > 0 {
      assert s[0] in counts;
    }
    r := best;
  }

  /** `majority_vote`: the same count over a hash map, whose iteration order is
      not specified, so which of several equally frequent elements comes back
      is not specified either. It panics (here `None`) on empty input. */
  method MajorityVote<T(==)>(s: seq<T>) returns (r: Option<T>)
    ensures r.None? <==> |s| == 0
    ensures r.Some? ==> IsMajority(s, r.value)
  {
    var counts := CountVotes(s);
    var pending := counts.Keys;
    var best: Option<T> := None;
    while pending != {}
      invariant pending <= counts.Keys
      invariant best.None? <==> pending == counts.Keys
      invariant best.Some? ==> best.value in counts && best.value !in pending
      invariant best.Some? ==> forall k :: k in counts && k !in pending ==> counts[k] <= counts[best.value]
      decreases pending
    {
      var k :| k in pending;
      if best.None? || counts[k] >= counts[best.value] {
        best := Some(k);
      }
      pending := pending - {k};
    }
    if |s| > 0 {
      assert s[0] in counts;
    }
    r := best;
  }
}
