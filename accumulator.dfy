/**
 The frequency accumulators `update_pair_counts` and `update_item_counts`
 (main.py:23-37). Each one is a method that updates a caller-owned
 `CountTable` in place, proved equal to a specification function on the
 table's contents (`AddPairs`, `AddItems`); the lemmas below state what those
 functions add to each key.
 */
module Accumulator {
  import opened Counting
  import opened Itemsets

  /** The pairs (a, t[0]), (a, t[1]), ...: the combinations whose first item is `a`. */
  function PairsWith<T>(a: T, t: seq<T>): (r: seq<(T, T)>)
    ensures |r| == |t|
    ensures forall j :: 0 <= j < |t| ==> r[j] == (a, t[j])
  {
    if t == [] then [] else [(a, t[0])] + PairsWith(a, t[1..])
  }

  /** `itertools.combinations(s, 2)`: the pair (s[i], s[j]) for every i < j,
      ordered by i and then by j; there are |s| choose 2 of them. */
  function Combinations<T>(s: seq<T>): (r: seq<(T, T)>)
    ensures 2 * |r| == |s| * (|s| - 1)
  {
    if s == [] then [] else PairsWith(s[0], s[1..]) + Combinations(s[1..])
  }

  /** Every combination is a pair of items at two positions i < j. */
  lemma {:induction false} CombinationsAreOrderedPositions<T>(s: seq<T>, p: (T, T))
    requires p in Combinations(s)
    ensures exists i, j :: 0 <= i < j < |s| && p == (s[i], s[j])
  {
    var t := s[1..];
    if p in PairsWith(s[0], t) {
      var k :| 0 <= k < |t| && PairsWith(s[0], t)[k] == p;
      assert p == (s[0], s[k + 1]);
    } else {
      assert p in Combinations(t);
      CombinationsAreOrderedPositions(t, p);
      var i, j :| 0 <= i < j < |t| && p == (t[i], t[j]);
      assert p == (s[i + 1], s[j + 1]);
    }
  }

  /** The pair of items at any two positions i < j is a combination. */
  lemma {:induction false} OrderedPositionsAreCombinations<T>(s: seq<T>, i: nat, j: nat)
    requires i < j < |s|
    ensures (s[i], s[j]) in Combinations(s)
  {
    var t := s[1..];
    if i == 0 {
      assert PairsWith(s[0], t)[j - 1] == (s[i], s[j]);
    } else {
      OrderedPositionsAreCombinations(t, i - 1, j - 1);
    }
  }

  /** The members of `Combinations(s)` are exactly the pairs of items at two
      positions i < j. */
  lemma CombinationsMembers<T>(s: seq<T>, p: (T, T))
    ensures p in Combinations(s) <==> exists i, j :: 0 <= i < j < |s| && p == (s[i], s[j])
  {
    if p in Combinations(s) {
      CombinationsAreOrderedPositions(s, p);
    }
    if exists i, j :: 0 <= i < j < |s| && p == (s[i], s[j]) {
      var i, j :| 0 <= i < j < |s| && p == (s[i], s[j]);
      OrderedPositionsAreCombinations(s, i, j);
    }
  }

  /** The same pair with its two items exchanged. */
  function Swap<T>(p: (T, T)): (T, T)
  {
    (p.1, p.0)
  }

  /** The table after `for (a, b) in pairs: t[(a, b)] += 1; t[(b, a)] += 1`,
      starting from `m`. */
  function CountBothWays<T(==,!new)>(m: map<(T, T), nat>, pairs: seq<(T, T)>): map<(T, T), nat>
  {
    if pairs == [] then m
    else
      var (a, b) := pairs[|pairs| - 1];
      Inc(Inc(CountBothWays(m, pairs[..|pairs| - 1]), (a, b)), (b, a))
  }

  /** The table after `update_pair_counts(m, s)`. */
  function AddPairs<T(==,!new)>(m: map<(T, T), nat>, s: seq<T>): map<(T, T), nat>
  {
    CountBothWays(m, Combinations(s))
  }

  /** The number of ordered pairs of distinct positions holding x and then y,
      given that x occurs `cx` times, y occurs `cy` times, and `same` tells
      whether x and y are one item. */
  ghost function OrderedPositionPairs(cx: nat, cy: nat, same: bool): nat
  {
    if !same then cx * cy else if cx == 0 then 0 else cx * (cx - 1)
  }

  /** What `update_pair_counts(_, s)` adds to the key (x, y): the number of
      ordered pairs of distinct positions i != j with s[i] == x and s[j] == y. */
  ghost function PairIncrement<T>(s: seq<T>, x: T, y: T): nat
  {
    OrderedPositionPairs(multiset(s)[x], multiset(s)[y], x == y)
  }

  /** One more occurrence of the leading item adds a pair with every later occurrence of the other. */
  lemma OrderedPositionPairsStep(cx: nat, cy: nat, sx: nat, sy: nat, same: bool, xa: bool, ya: bool)
    requires sx == cx + (if xa then 1 else 0) && sy == cy + (if ya then 1 else 0)
    requires same ==> xa == ya && cx == cy
    requires xa && ya ==> same
    ensures OrderedPositionPairs(sx, sy, same)
         == OrderedPositionPairs(cx, cy, same) + (if xa then cy else 0) + (if ya then cx else 0)
  {
    if !same && xa {
      assert (cx + 1) * cy == cx * cy + cy;
    } else if !same && ya {
      assert cx * (cy + 1) == cx * cy + cx;
    } else if same && xa {
      assert (cx + 1) * cx == cx * (cx - 1) + 2 * cx;
    }
  }

  /** Each listed pair adds one to itself and one to its swap; nothing else changes. */
  lemma {:induction false} CountBothWaysEffect<T(!new)>(m: map<(T, T), nat>, pairs: seq<(T, T)>, p: (T, T))
    ensures Get(CountBothWays(m, pairs), p) == Get(m, p) + multiset(pairs)[p] + multiset(pairs)[Swap(p)]
    ensures p in CountBothWays(m, pairs) <==> p in m || p in pairs || Swap(p) in pairs
  {
    if pairs != [] {
      var init := pairs[..|pairs| - 1];
      var (a, b) := pairs[|pairs| - 1];
      assert pairs == init + [(a, b)];
      CountBothWaysEffect(m, init, p);
      var mid := CountBothWays(m, init);
      assert CountBothWays(m, pairs) == Inc(Inc(mid, (a, b)), (b, a));
      assert multiset(pairs)[p] == multiset(init)[p] + if p == (a, b) then 1 else 0;
      assert multiset(pairs)[Swap(p)] == multiset(init)[Swap(p)] + if p == (b, a) then 1 else 0;
    }
  }

  /** The pairs led by `a` hold (a, y) as often as `t` holds y. */
  lemma {:induction false} PairsWithMultiplicity<T>(a: T, t: seq<T>, p: (T, T))
    ensures multiset(PairsWith(a, t))[p] == if p.0 == a then multiset(t)[p.1] else 0
  {
    if t != [] {
      assert t == [t[0]] + t[1..];
      assert PairsWith(a, t) == [(a, t[0])] + PairsWith(a, t[1..]);
      PairsWithMultiplicity(a, t[1..], p);
    }
  }

  /** The combinations of a non-empty sequence: those led by its head, then those of its tail. */
  lemma CombinationsSplit<T>(s: seq<T>, p: (T, T))
    requires s != []
    ensures multiset(Combinations(s))[p] == multiset(PairsWith(s[0], s[1..]))[p] + multiset(Combinations(s[1..]))[p]
  {
    assert Combinations(s) == PairsWith(s[0], s[1..]) + Combinations(s[1..]);
  }

  /** A non-empty sequence holds `x` once more than its tail when its head is `x`. */
  lemma HeadMultiplicity<T>(s: seq<T>, x: T)
    requires s != []
    ensures multiset(s)[x] == multiset(s[1..])[x] + if x == s[0] then 1 else 0
  {
    assert s == [s[0]] + s[1..];
  }

  /** Counted in both directions, the combinations of `s` hold (x, y) exactly
      `PairIncrement(s, x, y)` times. */
  lemma {:induction false} CombinationsMultiplicity<T>(s: seq<T>, x: T, y: T)
    ensures multiset(Combinations(s))[(x, y)] + multiset(Combinations(s))[(y, x)] == PairIncrement(s, x, y)
  {
    if s != [] {
      var a, t := s[0], s[1..];
      var cx, cy := multiset(t)[x], multiset(t)[y];
      CombinationsSplit(s, (x, y));
      CombinationsSplit(s, (y, x));
      CombinationsMultiplicity(t, x, y);
      PairsWithMultiplicity(a, t, (x, y));
      PairsWithMultiplicity(a, t, (y, x));
      HeadMultiplicity(s, x);
      HeadMultiplicity(s, y);
      OrderedPositionPairsStep(cx, cy, multiset(s)[x], multiset(s)[y], x == y, x == a, y == a);
    }
  }

  /** Pair update effect: `update_pair_counts(m, s)` adds `PairIncrement(s, x, y)`
      to every key (x, y), and a key is present afterwards exactly when it was
      before or has just been incremented. */
  lemma PairUpdateEffect<T(!new)>(m: map<(T, T), nat>, s: seq<T>, x: T, y: T)
    ensures Get(AddPairs(m, s), (x, y)) == Get(m, (x, y)) + PairIncrement(s, x, y)
    ensures (x, y) in AddPairs(m, s) <==> (x, y) in m || PairIncrement(s, x, y) > 0
  {
    CountBothWaysEffect(m, Combinations(s), (x, y));
    CombinationsMultiplicity(s, x, y);
  }

  /** For an itemset with no repeated item: (x, y) grows by exactly one when x
      and y are two different items of it, and every other key is unchanged. */
  lemma DistinctPairUpdate<T(!new)>(m: map<(T, T), nat>, s: seq<T>, x: T, y: T)
    requires Distinct(s)
    ensures Get(AddPairs(m, s), (x, y)) == Get(m, (x, y)) + if x in s && y in s && x != y then 1 else 0
    ensures (x, y) in AddPairs(m, s) <==> (x, y) in m || (x in s && y in s && x != y)
  {
    PairUpdateEffect(m, s, x, y);
    DistinctMultiplicity(s, x);
    DistinctMultiplicity(s, y);
  }

  /** The table counts (a, b) and (b, a) alike, and holds one exactly when it holds the other. */
  ghost predicate Symmetric<T>(m: map<(T, T), nat>)
  {
    forall p :: p in m ==> Swap(p) in m && m[Swap(p)] == m[p]
  }

  /** Symmetry: a symmetric table stays symmetric under `update_pair_counts`. */
  lemma PairSymmetryPreserved<T(!new)>(m: map<(T, T), nat>, s: seq<T>)
    requires Symmetric(m)
    ensures Symmetric(AddPairs(m, s))
  {
    var r := AddPairs(m, s);
    forall p | p in r
      ensures Swap(p) in r && r[Swap(p)] == r[p]
    {
      PairUpdateEffect(m, s, p.0, p.1);
      PairUpdateEffect(m, s, p.1, p.0);
      assert Swap(Swap(p)) == p;
      assert Get(m, p) == Get(m, Swap(p));
    }
  }

  /** Small itemsets: fewer than two items have no combinations, so the table is unchanged. */
  lemma SmallItemsetUnchanged<T(!new)>(m: map<(T, T), nat>, s: seq<T>)
    requires |s| < 2
    ensures AddPairs(m, s) == m
  {
    assert Combinations(s) == [];
  }

  /** The ordered pairs of two different members of `S`. */
  ghost function OrderedPairs<T>(S: set<T>): set<(T, T)>
  {
    set x, y | x in S && y in S && x != y :: (x, y)
  }

  /** Pairing one item with every member of `R`, on either side, gives |R| pairs. */
  lemma {:induction false} RowColumnCardinality<T>(a: T, R: set<T>)
    ensures |set y | y in R :: (a, y)| == |R|
    ensures |set y | y in R :: (y, a)| == |R|
    decreases R
  {
    if R != {} {
      var b :| b in R;
      var R' := R - {b};
      assert (set y | y in R :: (a, y)) == (set y | y in R' :: (a, y)) + {(a, b)};
      assert (set y | y in R :: (y, a)) == (set y | y in R' :: (y, a)) + {(b, a)};
      RowColumnCardinality(a, R');
    }
  }

  /** Taking one member `a` out of `S` splits the ordered pairs of `S` into
      those of the rest, those led by `a` and those ending in `a`. */
  lemma OrderedPairsSplit<T>(S: set<T>, a: T)
    requires a in S
    ensures OrderedPairs(S) == OrderedPairs(S - {a}) + (set y | y in S - {a} :: (a, y)) + (set y | y in S - {a} :: (y, a))
  {
    var R := S - {a};
    forall p | p in OrderedPairs(S)
      ensures p in OrderedPairs(R) || p in (set y | y in R :: (a, y)) || p in (set y | y in R :: (y, a))
    {
      var x, y :| x in S && y in S && x != y && p == (x, y);
      if x == a {
        assert p in (set y | y in R :: (a, y));
      } else if y == a {
        assert p in (set y | y in R :: (y, a));
      } else {
        assert p in OrderedPairs(R);
      }
    }
  }

  /** The three parts of `OrderedPairsSplit` do not overlap, so their sizes add up. */
  lemma OrderedPairsSplitCardinality<T>(S: set<T>, a: T)
    requires a in S
    ensures |OrderedPairs(S)| == |OrderedPairs(S - {a})| + 2 * |S - {a}|
  {
    var R := S - {a};
    var row := set y | y in R :: (a, y);
    var col := set y | y in R :: (y, a);
    OrderedPairsSplit(S, a);
    assert OrderedPairs(R) !! row;
    assert (OrderedPairs(R) + row) !! col;
    RowColumnCardinality(a, R);
  }

  /** A set of k items has k * (k - 1) ordered pairs of different members. */
  lemma {:induction false} OrderedPairsCardinality<T>(S: set<T>)
    ensures |OrderedPairs(S)| == |S| * (|S| - 1)
    decreases S
  {
    if S != {} {
      var a :| a in S;
      var R := S - {a};
      OrderedPairsSplitCardinality(S, a);
      OrderedPairsCardinality(R);
      assert |S| == |R| + 1;
      assert (|R| + 1) * |R| == |R| * (|R| - 1) + 2 * |R|;
    }
  }

  /** For a distinct itemset the new keys are the ordered pairs of two of its items. */
  lemma PairKeysDistinct<T(!new)>(m: map<(T, T), nat>, s: seq<T>)
    requires Distinct(s)
    ensures AddPairs(m, s).Keys == m.Keys + OrderedPairs(Elements(s))
  {
    forall p
      ensures p in AddPairs(m, s) <==> p in m || p in OrderedPairs(Elements(s))
    {
      DistinctPairUpdate(m, s, p.0, p.1);
    }
  }

  /** Pair key count: from an empty table, k distinct items give exactly
      k * (k - 1) keys, none of them a self-pair (a, a). */
  lemma PairKeyCount<T(!new)>(s: seq<T>)
    requires Distinct(s)
    ensures |AddPairs(map[], s)| == |s| * (|s| - 1)
    ensures forall p :: p in AddPairs(map[], s) ==> p.0 != p.1
  {
    PairKeysDistinct(map[], s);
    assert AddPairs(map[], s).Keys == OrderedPairs(Elements(s));
    OrderedPairsCardinality(Elements(s));
    DistinctCardinality(s);
  }

  /** `update_pair_counts` does not depend on the order in which the itemset
      is iterated. */
  lemma PairUpdateOrderIndependent<T(!new)>(m: map<(T, T), nat>, s: seq<T>, s': seq<T>)
    requires multiset(s) == multiset(s')
    ensures AddPairs(m, s) == AddPairs(m, s')
  {
    forall p
      ensures (p in AddPairs(m, s) <==> p in AddPairs(m, s'))
      ensures Get(AddPairs(m, s), p) == Get(AddPairs(m, s'), p)
    {
      PairUpdateEffect(m, s, p.0, p.1);
      PairUpdateEffect(m, s', p.0, p.1);
    }
    assert AddPairs(m, s).Keys == AddPairs(m, s').Keys;
  }

  /** Two itemsets added in either order give the same count for one key. */
  lemma PairUpdatesCommuteAt<T(!new)>(m: map<(T, T), nat>, s1: seq<T>, s2: seq<T>, x: T, y: T)
    ensures var a, b := AddPairs(AddPairs(m, s1), s2), AddPairs(AddPairs(m, s2), s1);
            ((x, y) in a <==> (x, y) in b) && Get(a, (x, y)) == Get(b, (x, y))
  {
    PairUpdateEffect(m, s1, x, y);
    PairUpdateEffect(m, s2, x, y);
    PairUpdateEffect(AddPairs(m, s1), s2, x, y);
    PairUpdateEffect(AddPairs(m, s2), s1, x, y);
  }

  /** Two itemsets added in either order give the same pair table. */
  lemma PairUpdatesCommute<T(!new)>(m: map<(T, T), nat>, s1: seq<T>, s2: seq<T>)
    ensures AddPairs(AddPairs(m, s1), s2) == AddPairs(AddPairs(m, s2), s1)
  {
    var a, b := AddPairs(AddPairs(m, s1), s2), AddPairs(AddPairs(m, s2), s1);
    forall p
      ensures (p in a <==> p in b) && Get(a, p) == Get(b, p)
    {
      PairUpdatesCommuteAt(m, s1, s2, p.0, p.1);
    }
    assert a.Keys == b.Keys;
  }

  /** The table after `update_item_counts(m, s)`. */
  function AddItems<T(==,!new)>(m: map<T, nat>, s: seq<T>): map<T, nat>
  {
    if s == [] then m else Inc(AddItems(m, s[..|s| - 1]), s[|s| - 1])
  }

  /** Item update effect: every item's count grows by the number of times it
      occurs in `s`; the new keys are the items of `s`. */
  lemma {:induction false} ItemUpdateEffect<T(!new)>(m: map<T, nat>, s: seq<T>, x: T)
    ensures Get(AddItems(m, s), x) == Get(m, x) + multiset(s)[x]
    ensures x in AddItems(m, s) <==> x in m || x in s
  {
    if s != [] {
      assert s == s[..|s| - 1] + [s[|s| - 1]];
      ItemUpdateEffect(m, s[..|s| - 1], x);
    }
  }

  /** `update_item_counts` does not depend on the order in which the itemset
      is iterated. */
  lemma ItemUpdateOrderIndependent<T(!new)>(m: map<T, nat>, s: seq<T>, s': seq<T>)
    requires multiset(s) == multiset(s')
    ensures AddItems(m, s) == AddItems(m, s')
  {
    forall x
      ensures (x in AddItems(m, s) <==> x in AddItems(m, s'))
      ensures Get(AddItems(m, s), x) == Get(AddItems(m, s'), x)
    {
      ItemUpdateEffect(m, s, x);
      ItemUpdateEffect(m, s', x);
    }
    assert AddItems(m, s).Keys == AddItems(m, s').Keys;
  }

  /** Two itemsets added in either order give the same count for one item. */
  lemma ItemUpdatesCommuteAt<T(!new)>(m: map<T, nat>, s1: seq<T>, s2: seq<T>, x: T)
    ensures var a, b := AddItems(AddItems(m, s1), s2), AddItems(AddItems(m, s2), s1);
            (x in a <==> x in b) && Get(a, x) == Get(b, x)
  {
    ItemUpdateEffect(m, s1, x);
    ItemUpdateEffect(m, s2, x);
    ItemUpdateEffect(AddItems(m, s1), s2, x);
    ItemUpdateEffect(AddItems(m, s2), s1, x);
  }

  /** Two itemsets added in either order give the same item table. */
  lemma ItemUpdatesCommute<T(!new)>(m: map<T, nat>, s1: seq<T>, s2: seq<T>)
    ensures AddItems(AddItems(m, s1), s2) == AddItems(AddItems(m, s2), s1)
  {
    var a, b := AddItems(AddItems(m, s1), s2), AddItems(AddItems(m, s2), s1);
    forall x
      ensures (x in a <==> x in b) && Get(a, x) == Get(b, x)
    {
      ItemUpdatesCommuteAt(m, s1, s2, x);
    }
    assert a.Keys == b.Keys;
  }

  /** `PairUpdateEffect` for every key at once. */
  lemma PairUpdateEffectAll<T(!new)>(m: map<(T, T), nat>, s: seq<T>)
    ensures forall x, y :: Get(AddPairs(m, s), (x, y)) == Get(m, (x, y)) + PairIncrement(s, x, y)
  {
    forall x, y
      ensures Get(AddPairs(m, s), (x, y)) == Get(m, (x, y)) + PairIncrement(s, x, y)
    {
      PairUpdateEffect(m, s, x, y);
    }
  }

  /** `update_pair_counts(pair_counts, itemset)`: increments (a, b) and (b, a)
      for every combination {a, b} of the itemset. */
  method UpdatePairCounts<T(==,!new)>(pairCounts: CountTable<(T, T)>, itemset: seq<T>)
    modifies pairCounts
    ensures pairCounts.counts == AddPairs(old(pairCounts.counts), itemset)
    ensures forall x, y :: Get(pairCounts.counts, (x, y)) == Get(old(pairCounts.counts), (x, y)) + PairIncrement(itemset, x, y)
  {
    var possiblePairs := Combinations(itemset);
    for k := 0 to |possiblePairs|
      invariant pairCounts.counts == CountBothWays(old(pairCounts.counts), possiblePairs[..k])
    {
      var (a, b) := possiblePairs[k];
      ghost var done := possiblePairs[..k + 1];
      assert done[..|done| - 1] == possiblePairs[..k] && done[|done| - 1] == (a, b);
      pairCounts.Increment((a, b));
      pairCounts.Increment((b, a));
    }
    assert possiblePairs[..|possiblePairs|] == possiblePairs;
    PairUpdateEffectAll(old(pairCounts.counts), itemset);
  }

  /** `update_item_counts(item_counts, itemset)`: one increment per element. */
  method UpdateItemCounts<T(==,!new)>(itemCounts: CountTable<T>, itemset: seq<T>)
    modifies itemCounts
    ensures itemCounts.counts == AddItems(old(itemCounts.counts), itemset)
    ensures forall x :: Get(itemCounts.counts, x) == Get(old(itemCounts.counts), x) + multiset(itemset)[x]
  {
    for k := 0 to |itemset|
      invariant itemCounts.counts == AddItems(old(itemCounts.counts), itemset[..k])
    {
      itemCounts.Increment(itemset[k]);
      assert itemset[..k + 1][..k] == itemset[..k];
    }
    assert itemset[..|itemset|] == itemset;
    forall x
      ensures Get(itemCounts.counts, x) == Get(old(itemCounts.counts), x) + multiset(itemset)[x]
    {
      ItemUpdateEffect(old(itemCounts.counts), itemset, x);
    }
  }
}
