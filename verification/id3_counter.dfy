/** The two-level count table the split evaluation feeds: for every code of the
    candidate attribute, how often each target code occurs with it. */
module Id3Counter {
  import opened Base

  /** (split value) -> (target value) -> number of instances with both. */
  type Counts = map<u32, map<u32, nat>>

  /** The table after one more instance with codes `split` and `target`. */
  function Bump(c: Counts, split: u32, target: u32): Counts {
    var inner: map<u32, nat> := if split in c then c[split] else map[];
    var count: nat := if target in inner then inner[target] + 1 else 1;
    c[split := inner[target := count]]
  }

  /** The sum of the values of a map. */
  ghost function SumMap<K>(m: map<K, nat>): nat
    decreases |m|
  {
    if |m| == 0 then 0 else var k := Pick(m); m[k] + SumMap(m - {k})
  }

  /** Some key of a non-empty map. */
  ghost function Pick<K>(m: map<K, nat>): (k: K)
    requires |m| != 0
    ensures k in m
  {
    var k :| k in m; k
  }

  /** Any key can be taken out first. */
  lemma {:induction false} SumMapRemove<K>(m: map<K, nat>, k: K)
    requires k in m
    ensures SumMap(m) == m[k] + SumMap(m - {k})
    decreases |m|
  {
    var j := Pick(m);
    if j != k {
      assert (m - {j})[k] == m[k];
      SumMapRemove(m - {j}, k);
      SumMapRemove(m - {k}, j);
      assert m - {j} - {k} == m - {k} - {j};
    }
  }

  lemma SumMapUpdate<K>(m: map<K, nat>, k: K, v: nat)
    ensures SumMap(m[k := v]) == (if k in m then SumMap(m) - m[k] else SumMap(m)) + v
  {
    SumMapRemove(m[k := v], k);
    assert m[k := v] - {k} == m - {k};
    if k in m {
      SumMapRemove(m, k);
    } else {
      assert m - {k} == m;
    }
  }

  /** The number of instances per split code. */
  ghost function Sizes(c: Counts): map<u32, nat> {
    map s | s in c :: SumMap(c[s])
  }

  /** The number of instances in the table: the sum of all counts. */
  ghost function Total(c: Counts): nat {
    SumMap(Sizes(c))
  }

  lemma SizesUpdate(c: Counts, split: u32, inner: map<u32, nat>)
    ensures Sizes(c[split := inner]) == Sizes(c)[split := SumMap(inner)]
  {
    var l := Sizes(c[split := inner]);
    var r := Sizes(c)[split := SumMap(inner)];
    assert l.Keys == r.Keys;
    forall s | s in l
      ensures l[s] == r[s]
    {
    }
  }

  /** One more instance raises the sum of all counts by one. */
  lemma TotalBump(c: Counts, split: u32, target: u32)
    ensures Total(Bump(c, split, target)) == Total(c) + 1
  {
    var inner: map<u32, nat> := if split in c then c[split] else map[];
    var count: nat := if target in inner then inner[target] + 1 else 1;
    var bumped := inner[target := count];
    assert Bump(c, split, target) == c[split := bumped];
    SumMapUpdate(inner, target, count);
    assert SumMap(bumped) == SumMap(inner) + 1;
    SizesUpdate(c, split, bumped);
    SumMapUpdate(Sizes(c), split, SumMap(bumped));
    if split in c {
      assert Sizes(c)[split] == SumMap(inner);
    } else {
      assert SumMap(inner) == 0;
    }
  }

  /** `Counter`: the count table and the number of instances entered. */
  class Counter {
    var counts: Counts
    var len: nat

    /** `len` is the sum of all counts. */
    ghost predicate Valid()
      reads this
    {
      len == Total(counts)
    }

    /** `Counter::new`: an empty table. */
    constructor ()
      ensures Valid() && counts == map[] && len == 0
    {
      counts := map[];
      len := 0;
      new;
      assert Sizes(counts) == map[];
    }

    /** `Counter::insert`: raises `len` and the count of (`split`, `target`) by
        one, creating the inner table or the entry with count 1 where absent. */
    method Insert(split: u32, target: u32)
      requires Valid()
      modifies this
      ensures Valid()
      ensures len == old(len) + 1
      ensures counts == Bump(old(counts), split, target)
    {
      TotalBump(counts, split, target);
      ghost var bumped := Bump(counts, split, target);
      len := len + 1;
      if split in counts {
        var inner: map<u32, nat> := counts[split];
        if target in inner {
          assert bumped == counts[split := inner[target := inner[target] + 1]];
          counts := counts[split := inner[target := inner[target] + 1]];
        } else {
          assert bumped == counts[split := inner[target := 1]];
          counts := counts[split := inner[target := 1]];
        }
      } else {
        var inner: map<u32, nat> := map[target := 1];
        assert bumped == counts[split := inner];
        counts := counts[split := inner];
      }
    }
  }

  /** The pairs of two columns, as `Iterator::zip` yields them: up to the end of
      the shorter one. */
  function Zip(xs: seq<u32>, ys: seq<u32>): (z: seq<(u32, u32)>)
    ensures |z| == if |xs| < |ys| then |xs| else |ys|
    ensures forall i :: 0 <= i < |z| ==> z[i] == (xs[i], ys[i])
  {
    seq(if |xs| < |ys| then |xs| else |ys|, i requires 0 <= i < |xs| && 0 <= i < |ys| => (xs[i], ys[i]))
  }

  /** The table a fresh counter holds after inserting `pairs` in order. */
  function Tally(pairs: seq<(u32, u32)>): Counts {
    if |pairs| == 0 then map[]
    else
      var last := pairs[|pairs| - 1];
      Bump(Tally(pairs[..|pairs| - 1]), last.0, last.1)
  }

  /** Every count in the table is the number of times its pair was inserted,
      and the table holds exactly the inserted pairs. */
  lemma {:induction false} TallyCounts(pairs: seq<(u32, u32)>, split: u32, target: u32)
    ensures split in Tally(pairs) <==> exists t :: (split, t) in pairs
    ensures (split in Tally(pairs) && target in Tally(pairs)[split]) <==> (split, target) in pairs
    ensures split in Tally(pairs) && target in Tally(pairs)[split] ==>
              Tally(pairs)[split][target] == multiset(pairs)[(split, target)]
  {
    if |pairs| > 0 {
      var init := pairs[..|pairs| - 1];
      var last := pairs[|pairs| - 1];
      assert pairs == init + [last];
      TallyCounts(init, split, target);
      if split == last.0 {
        assert (split, last.1) in pairs;
      }
      if exists t :: (split, t) in pairs {
        var t :| (split, t) in pairs;
        if (split, t) != last {
          assert (split, t) in init;
        }
      }
    }
  }

  /** The sum of all counts is the number of pairs inserted. */
  lemma {:induction false} TallyTotal(pairs: seq<(u32, u32)>)
    ensures Total(Tally(pairs)) == |pairs|
  {
    if |pairs| == 0 {
      assert Sizes(map[]) == map[];
    } else {
      var last := pairs[|pairs| - 1];
      TallyTotal(pairs[..|pairs| - 1]);
      TotalBump(Tally(pairs[..|pairs| - 1]), last.0, last.1);
    }
  }

  /** A fresh counter fed with the pairs of two whole columns, as the split
      evaluation builds one per candidate attribute. */
  method TallyColumns(xs: seq<u32>, ys: seq<u32>) returns (c: Counter)
    ensures fresh(c) && c.Valid()
    ensures c.counts == Tally(Zip(xs, ys)) && c.len == |Zip(xs, ys)|
  {
    c := new Counter();
    var pairs := Zip(xs, ys);
    for i := 0 to |pairs|
      invariant c.Valid() && c.counts == Tally(pairs[..i]) && c.len == i
    {
      assert pairs[..i + 1][..i] == pairs[..i];
      assert Tally(pairs[..i + 1]) == Bump(Tally(pairs[..i]), pairs[i].0, pairs[i].1);
      c.Insert(pairs[i].0, pairs[i].1);
    }
    assert pairs[..|pairs|] == pairs;
  }
}
