/**
 The rule filter `filter_rules_by_conf` (main.py:40-49): a directional pair
 (a, b) of the pair table becomes the rule "a => b" when the antecedent `a`
 has at least `countMin` baskets and the confidence
 count(a, b) / count(a) reaches `threshold`. Confidences are exact reals.
 */
module RuleFilter {
  import opened Counting

  /** The confidence of "a => b": the share of the baskets holding `a` that
      also hold `b`. It is positive when the pair was seen and at most 1 when
      the pair was seen no more often than its antecedent. */
  function Confidence(countAB: nat, countA: nat): (c: real)
    requires countA > 0
    ensures countAB > 0 ==> c > 0.0
    ensures countAB <= countA ==> c <= 1.0
  {
    countAB as real / countA as real
  }

  /** No confidence the filter computes divides by zero: every pair whose
      antecedent passes the `countMin` test has an antecedent count above 0. */
  ghost predicate ConfidenceDefined<T>(pairCounts: map<(T, T), nat>, itemCounts: map<T, nat>, countMin: int)
  {
    forall p :: p in pairCounts && Get(itemCounts, p.0) >= countMin ==> Get(itemCounts, p.0) > 0
  }

  /** The test the filter applies to the pair `p` of the table. */
  ghost predicate Kept<T>(pairCounts: map<(T, T), nat>, itemCounts: map<T, nat>, threshold: real, countMin: int, p: (T, T))
    requires ConfidenceDefined(pairCounts, itemCounts, countMin)
    requires p in pairCounts
  {
    Get(itemCounts, p.0) >= countMin && Confidence(pairCounts[p], Get(itemCounts, p.0)) >= threshold
  }

  /** The rules `filter_rules_by_conf` returns, each mapped to its confidence. */
  ghost function Rules<T>(pairCounts: map<(T, T), nat>, itemCounts: map<T, nat>, threshold: real, countMin: int): map<(T, T), real>
    requires ConfidenceDefined(pairCounts, itemCounts, countMin)
  {
    map p | p in pairCounts && Kept(pairCounts, itemCounts, threshold, countMin, p)
      :: Confidence(pairCounts[p], Get(itemCounts, p.0))
  }

  /** `filter_rules_by_conf(pair_counts, item_counts, threshold, count_min)`:
      the result holds exactly the pairs of the table whose antecedent count
      reaches `countMin` and whose confidence reaches `threshold`, each with
      that confidence. */
  method FilterRulesByConf<T(==)>(pairCounts: map<(T, T), nat>, itemCounts: map<T, nat>, threshold: real, countMin: int := 1)
    returns (rules: map<(T, T), real>)
    requires ConfidenceDefined(pairCounts, itemCounts, countMin)
    ensures rules == Rules(pairCounts, itemCounts, threshold, countMin)
    ensures rules.Keys <= pairCounts.Keys
    ensures forall p :: p in rules ==>
      && Get(itemCounts, p.0) >= countMin
      && Get(itemCounts, p.0) > 0
      && rules[p] == Confidence(pairCounts[p], Get(itemCounts, p.0))
      && rules[p] >= threshold
    ensures forall p :: p in pairCounts && Get(itemCounts, p.0) >= countMin ==>
      (p in rules <==> Confidence(pairCounts[p], Get(itemCounts, p.0)) >= threshold)
  {
    rules := map[];
    var pending := pairCounts.Keys;
    while pending != {}
      invariant pending <= pairCounts.Keys
      invariant forall p :: p in rules <==>
        p in pairCounts && p !in pending && Kept(pairCounts, itemCounts, threshold, countMin, p)
      invariant forall p :: p in rules ==> rules[p] == Confidence(pairCounts[p], Get(itemCounts, p.0))
      decreases pending
    {
      var p :| p in pending;
      var countAB := pairCounts[p];
      var countA := Get(itemCounts, p.0);
      if countA >= countMin {
        var conf := Confidence(countAB, countA);
        if conf >= threshold {
          rules := rules[p := conf];
        }
      }
      pending := pending - {p};
    }
  }

  /** Threshold monotonicity: with the same tables, raising `threshold` or
      `countMin` keeps a subset of the rules, with the same confidences. */
  lemma RulesMonotone<T>(pairCounts: map<(T, T), nat>, itemCounts: map<T, nat>,
                         threshold: real, threshold': real, countMin: int, countMin': int)
    requires threshold <= threshold' && countMin <= countMin'
    requires ConfidenceDefined(pairCounts, itemCounts, countMin)
    ensures ConfidenceDefined(pairCounts, itemCounts, countMin')
    ensures var stricter := Rules(pairCounts, itemCounts, threshold', countMin');
            var looser := Rules(pairCounts, itemCounts, threshold, countMin);
            forall p :: p in stricter ==> p in looser && stricter[p] == looser[p]
  {
  }
}
