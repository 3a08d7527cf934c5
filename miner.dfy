/**
 The driver `find_assoc_rules` (main.py:70-76): one pass over the receipts
 threads the pair table and the item table through both accumulators, then
 the rule filter reads them. `Accumulate` is the pair of tables that pass
 builds; the lemmas state that they never make the filter divide by zero,
 that the pair table is symmetric, that they depend neither on the order of
 the receipts nor on the iteration order inside each itemset, and that with
 set-like receipts every confidence lies in (0, 1].
 */
module Miner {
  import opened Counting
  import opened Itemsets
  import opened Accumulator
  import opened RuleFilter

  /** The two tables the driver threads through its loop. */
  datatype Tables<T> = Tables(pairCounts: map<(T, T), nat>, itemCounts: map<T, nat>)

  /** One iteration of the driver's loop: both accumulators applied to one itemset. */
  function AddReceipt<T(==,!new)>(t: Tables<T>, itemset: seq<T>): Tables<T>
  {
    Tables(AddPairs(t.pairCounts, itemset), AddItems(t.itemCounts, itemset))
  }

  /** The tables after the loop has run over `receipts`, in order, starting from `t`. */
  function AccumulateFrom<T(==,!new)>(t: Tables<T>, receipts: seq<seq<T>>): Tables<T>
  {
    if receipts == [] then t
    else AddReceipt(AccumulateFrom(t, receipts[..|receipts| - 1]), receipts[|receipts| - 1])
  }

  /** The tables `find_assoc_rules` builds from two fresh `defaultdict(int)`s. */
  function Accumulate<T(==,!new)>(receipts: seq<seq<T>>): Tables<T>
  {
    AccumulateFrom(Tables(map[], map[]), receipts)
  }

  /** Every pair in the table has an antecedent counted at least once. */
  ghost predicate AntecedentsCounted<T>(t: Tables<T>)
  {
    forall p :: p in t.pairCounts ==> Get(t.itemCounts, p.0) >= 1
  }

  /** Every pair in the table was counted at least once, and no more often
      than its antecedent. */
  ghost predicate PairsBoundedByItems<T>(t: Tables<T>)
  {
    forall p :: p in t.pairCounts ==> 1 <= t.pairCounts[p] <= Get(t.itemCounts, p.0)
  }

  /** One receipt keeps every pair's antecedent counted: a pair can only be
      added together with an occurrence of its first item. */
  lemma AddReceiptKeepsAntecedentsCounted<T(!new)>(t: Tables<T>, itemset: seq<T>)
    requires AntecedentsCounted(t)
    ensures AntecedentsCounted(AddReceipt(t, itemset))
  {
    var t' := AddReceipt(t, itemset);
    forall p | p in t'.pairCounts
      ensures Get(t'.itemCounts, p.0) >= 1
    {
      PairUpdateEffect(t.pairCounts, itemset, p.0, p.1);
      ItemUpdateEffect(t.itemCounts, itemset, p.0);
      if p !in t.pairCounts {
        assert multiset(itemset)[p.0] > 0;
      }
    }
  }

  /** Tables built from any receipts never let the filter divide by zero. */
  lemma {:induction false} AccumulatedAntecedentsCounted<T(!new)>(receipts: seq<seq<T>>)
    ensures AntecedentsCounted(Accumulate(receipts))
  {
    if receipts != [] {
      AccumulatedAntecedentsCounted(receipts[..|receipts| - 1]);
      AddReceiptKeepsAntecedentsCounted(Accumulate(receipts[..|receipts| - 1]), receipts[|receipts| - 1]);
    }
  }

  /** A receipt without repeated items adds at most one to a pair and then
      also one to its antecedent. */
  lemma AddReceiptKeepsPairsBounded<T(!new)>(t: Tables<T>, itemset: seq<T>)
    requires PairsBoundedByItems(t)
    requires Distinct(itemset)
    ensures PairsBoundedByItems(AddReceipt(t, itemset))
  {
    var t' := AddReceipt(t, itemset);
    forall p | p in t'.pairCounts
      ensures 1 <= t'.pairCounts[p] <= Get(t'.itemCounts, p.0)
    {
      DistinctPairUpdate(t.pairCounts, itemset, p.0, p.1);
      ItemUpdateEffect(t.itemCounts, itemset, p.0);
      DistinctMultiplicity(itemset, p.0);
    }
  }

  /** Driver guarantee: from set-like receipts, every pair's count lies
      between 1 and its antecedent's count. */
  lemma {:induction false} AccumulatedPairsBounded<T(!new)>(receipts: seq<seq<T>>)
    requires forall i :: 0 <= i < |receipts| ==> Distinct(receipts[i])
    ensures PairsBoundedByItems(Accumulate(receipts))
  {
    if receipts != [] {
      var init := receipts[..|receipts| - 1];
      AccumulatedPairsBounded(init);
      AddReceiptKeepsPairsBounded(Accumulate(init), receipts[|receipts| - 1]);
    }
  }

  /** The rules `find_assoc_rules(receipts, threshold, count_min)` returns. */
  ghost function MinedRules<T(!new)>(receipts: seq<seq<T>>, threshold: real, countMin: int): map<(T, T), real>
  {
    var t := Accumulate(receipts);
    AccumulatedAntecedentsCounted(receipts);
    Rules(t.pairCounts, t.itemCounts, threshold, countMin)
  }

  /** Driver guarantee: for set-like receipts every mined confidence lies in (0, 1]. */
  lemma MinedConfidencesInUnitInterval<T(!new)>(receipts: seq<seq<T>>, threshold: real, countMin: int)
    requires forall i :: 0 <= i < |receipts| ==> Distinct(receipts[i])
    ensures forall p :: p in MinedRules(receipts, threshold, countMin) ==>
      0.0 < MinedRules(receipts, threshold, countMin)[p] <= 1.0
  {
    AccumulatedPairsBounded(receipts);
  }

  /** Processing two receipts in either order gives the same tables. */
  lemma AddReceiptsCommute<T(!new)>(t: Tables<T>, s1: seq<T>, s2: seq<T>)
    ensures AddReceipt(AddReceipt(t, s1), s2) == AddReceipt(AddReceipt(t, s2), s1)
  {
    PairUpdatesCommute(t.pairCounts, s1, s2);
    ItemUpdatesCommute(t.itemCounts, s1, s2);
  }

  /** A receipt processed first gives the same tables as when processed after `later`. */
  lemma {:induction false} AddReceiptFirstOrLast<T(!new)>(t: Tables<T>, itemset: seq<T>, later: seq<seq<T>>)
    ensures AccumulateFrom(AddReceipt(t, itemset), later) == AddReceipt(AccumulateFrom(t, later), itemset)
  {
    if later != [] {
      var init, last := later[..|later| - 1], later[|later| - 1];
      AddReceiptFirstOrLast(t, itemset, init);
      AddReceiptsCommute(AccumulateFrom(t, init), itemset, last);
    }
  }

  /** Running over `u + v` is running over `u`, then over `v`. */
  lemma {:induction false} AccumulateAppend<T(!new)>(t: Tables<T>, u: seq<seq<T>>, v: seq<seq<T>>)
    ensures AccumulateFrom(t, u + v) == AccumulateFrom(AccumulateFrom(t, u), v)
  {
    if v == [] {
      assert u + v == u;
    } else {
      assert (u + v)[..|u + v| - 1] == u + v[..|v| - 1];
      AccumulateAppend(t, u, v[..|v| - 1]);
    }
  }

  /** A receipt of `u` occurs somewhere in its permutation `v`. */
  lemma FindReceipt<T>(u: seq<seq<T>>, v: seq<seq<T>>, k: nat) returns (i: nat)
    requires multiset(u) == multiset(v)
    requires k < |u|
    ensures i < |v| && v[i] == u[k]
  {
    assert u[k] in multiset(u);
    i :| 0 <= i < |v| && v[i] == u[k];
  }

  /** Removing the last receipt of `u` and one equal receipt of `v` keeps two
      permutations of each other. */
  lemma RemoveMatchingReceipt<T>(u: seq<seq<T>>, v: seq<seq<T>>, i: nat)
    requires multiset(u) == multiset(v)
    requires u != [] && i < |v| && v[i] == u[|u| - 1]
    ensures multiset(u[..|u| - 1]) == multiset(v[..i] + v[i + 1..])
  {
    var init, last := u[..|u| - 1], u[|u| - 1];
    assert u == init + [last];
    assert v == v[..i] + [last] + v[i + 1..];
    assert multiset(u) == multiset(init) + multiset{last};
    assert multiset(v) == multiset(v[..i] + v[i + 1..]) + multiset{last};
    forall r
      ensures multiset(init)[r] == multiset(v[..i] + v[i + 1..])[r]
    {
      assert multiset(u)[r] == multiset(v)[r];
    }
  }

  /** A receipt in the middle of the sequence gives the same tables as when
      moved to its end. */
  lemma AccumulateAroundOne<T(!new)>(t: Tables<T>, before: seq<seq<T>>, itemset: seq<T>, after: seq<seq<T>>)
    ensures AccumulateFrom(t, before + [itemset] + after) == AddReceipt(AccumulateFrom(t, before + after), itemset)
  {
    AccumulateAppend(t, before + [itemset], after);
    AccumulateAppend(t, before, after);
    assert (before + [itemset])[..|before + [itemset]| - 1] == before;
    AddReceiptFirstOrLast(AccumulateFrom(t, before), itemset, after);
  }

  /** Accumulating `v` is accumulating it without its receipt at `i` and
      then adding that receipt. */
  lemma AccumulateWithoutOne<T(!new)>(t: Tables<T>, v: seq<seq<T>>, i: nat)
    requires i < |v|
    ensures AccumulateFrom(t, v) == AddReceipt(AccumulateFrom(t, v[..i] + v[i + 1..]), v[i])
  {
    assert v == v[..i] + [v[i]] + v[i + 1..];
    AccumulateAroundOne(t, v[..i], v[i], v[i + 1..]);
  }

  /** Order independence: the tables depend only on the multiset of receipts. */
  lemma {:induction false} AccumulatePermutation<T(!new)>(t: Tables<T>, u: seq<seq<T>>, v: seq<seq<T>>)
    requires multiset(u) == multiset(v)
    ensures AccumulateFrom(t, u) == AccumulateFrom(t, v)
    decreases |u|
  {
    if u == [] {
      assert |v| == |multiset(v)| == 0;
    } else {
      var i := FindReceipt(u, v, |u| - 1);
      RemoveMatchingReceipt(u, v, i);
      AccumulatePermutation(t, u[..|u| - 1], v[..i] + v[i + 1..]);
      AccumulateWithoutOne(t, v, i);
    }
  }

  /** Order independence of the mined rules: permuting the receipts changes nothing. */
  lemma MinedRulesOrderIndependent<T(!new)>(u: seq<seq<T>>, v: seq<seq<T>>, threshold: real, countMin: int)
    requires multiset(u) == multiset(v)
    ensures Accumulate(u) == Accumulate(v)
    ensures MinedRules(u, threshold, countMin) == MinedRules(v, threshold, countMin)
  {
    AccumulatePermutation(Tables(map[], map[]), u, v);
  }

  /** Every pair table the driver's loop reaches is symmetric: (a, b) and
      (b, a) are keys together and have the same count. */
  lemma {:induction false} AccumulatedSymmetric<T(!new)>(receipts: seq<seq<T>>)
    ensures Symmetric(Accumulate(receipts).pairCounts)
  {
    if receipts != [] {
      var init := receipts[..|receipts| - 1];
      AccumulatedSymmetric(init);
      PairSymmetryPreserved(Accumulate(init).pairCounts, receipts[|receipts| - 1]);
    }
  }

  /** The order in which each itemset is iterated does not change the
      tables: receipts holding the same items, receipt by receipt, give
      equal tables. */
  lemma {:induction false} AccumulateItemsetOrder<T(!new)>(u: seq<seq<T>>, v: seq<seq<T>>)
    requires |u| == |v|
    requires forall i :: 0 <= i < |u| ==> multiset(u[i]) == multiset(v[i])
    ensures Accumulate(u) == Accumulate(v)
  {
    if u != [] {
      var n := |u| - 1;
      AccumulateItemsetOrder(u[..n], v[..n]);
      var t := Accumulate(u[..n]);
      PairUpdateOrderIndependent(t.pairCounts, u[n], v[n]);
      ItemUpdateOrderIndependent(t.itemCounts, u[n], v[n]);
    }
  }

  /** Neither the order of the receipts nor the iteration order inside each
      itemset changes the mined rules. */
  lemma MinedRulesItemsetOrder<T(!new)>(u: seq<seq<T>>, v: seq<seq<T>>, threshold: real, countMin: int)
    requires |u| == |v|
    requires forall i :: 0 <= i < |u| ==> multiset(u[i]) == multiset(v[i])
    ensures MinedRules(u, threshold, countMin) == MinedRules(v, threshold, countMin)
  {
    AccumulateItemsetOrder(u, v);
  }

  /** `find_assoc_rules(receipts, threshold, count_min)`: accumulate every
      receipt into two fresh tables, then filter. No receipts give no rules. */
  method FindAssocRules<T(==,!new)>(receipts: seq<seq<T>>, threshold: real, countMin: int := 1)
    returns (rules: map<(T, T), real>)
    ensures rules == MinedRules(receipts, threshold, countMin)
    ensures receipts == [] ==> rules == map[]
  {
    var pairCounts := new CountTable<(T, T)>();
    var itemCounts := new CountTable<T>();
    for i := 0 to |receipts|
      invariant pairCounts.counts == Accumulate(receipts[..i]).pairCounts
      invariant itemCounts.counts == Accumulate(receipts[..i]).itemCounts
    {
      assert receipts[..i + 1][..i] == receipts[..i];
      UpdatePairCounts(pairCounts, receipts[i]);
      UpdateItemCounts(itemCounts, receipts[i]);
    }
    assert receipts[..|receipts|] == receipts;
    AccumulatedAntecedentsCounted(receipts);
    rules := FilterRulesByConf(pairCounts.counts, itemCounts.counts, threshold, countMin);
  }
}
