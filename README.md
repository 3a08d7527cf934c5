# Pairwise association rules, modelled in Dafny

This project models the core of a pairwise association-rule miner for basket
data (`main.py`). The miner turns each receipt into an itemset, then counts
two things in one pass over the itemsets:

- how often each ordered pair of items occurs together (the pair table);
- how often each item occurs (the item table).

It then keeps each rule "a => b" whose antecedent `a` has at least `count_min`
baskets and whose confidence count(a, b) / count(a) reaches `threshold`.

Modules (one file each):

- `Counting` (`counting.dfy`): default-zero count tables. `Get` reads a table
  and returns 0 for an absent key. `Inc` is `t[k] += 1`. `CountTable` is the
  mutable `defaultdict(int)` the accumulators update in place.
- `Itemsets` (`itemsets.dfy`): an itemset is the sequence of its items in
  iteration order, with no item twice (`Distinct`). `Dedup` is `set(items)`.
  `MakeItemsets` is `make_itemsets`.
- `Accumulator` (`accumulator.dfy`): the methods `UpdatePairCounts` and
  `UpdateItemCounts` are proved equal to the specification functions
  `AddPairs` and `AddItems`. Lemmas state what those functions add to each
  key, that symmetry is preserved, how many keys there are, and that the
  iteration order does not matter.
- `RuleFilter` (`rule_filter.dfy`): `FilterRulesByConf` is the filter loop.
  Its contract characterises the result completely, and `Rules` is the same
  result as a map comprehension. Confidences are exact reals.
- `Miner` (`miner.dfy`): `FindAssocRules` is the driver. `Accumulate` gives
  the two tables that its loop builds. Lemmas show the filter never divides
  by zero on those tables, that the pair table is symmetric, that the rules
  depend only on the multiset of receipts and not on the iteration order
  inside each itemset, and that with set-like receipts every confidence lies
  in (0, 1].
- `Scenarios` (`scenarios.dfy`): the concrete cases of `test.py`, proved for
  every iteration order of the sets involved.

## Model

| member | source | states |
|---|---|---|
| `Counting.Inc` | main.py:31-32 | `t[k] += 1` on a default-zero table: `k` becomes a key, its count grows by one, and no other count changes |
| `Counting.CountTable.constructor` | main.py:71-72 | `defaultdict(int)` starts with no keys |
| `Counting.CountTable.Increment` | main.py:37 | the in-place `+= 1` replaces the table by `Inc` of the old table |
| `Itemsets.Dedup` | main.py:20 | `set(items)` has no repeated item and has exactly the items of its input |
| `Itemsets.MakeItemsets` | main.py:19-20 | one itemset per receipt; each has no repeats and holds exactly that receipt's items |
| `Itemsets.DistinctCardinality` | main.py:20 | a set-like itemset has as many items as its set of elements |
| `Accumulator.PairsWith` | main.py:29 | the combinations led by one item: one pair per later item, in order |
| `Accumulator.Combinations` | main.py:29 | `itertools.combinations(s, 2)` yields \|s\| choose 2 pairs |
| `Accumulator.CombinationsMembers` | main.py:29 | a pair is a combination exactly when it is (s[i], s[j]) for some positions i < j |
| `Accumulator.CombinationsMultiplicity` | main.py:29-32 | counted both ways, the combinations hold (x, y) once per ordered pair of distinct positions holding x and then y |
| `Accumulator.CountBothWaysEffect` | main.py:30-32 | the loop adds one to each listed pair and one to its swap; a key is present afterwards exactly when it was before or was listed either way |
| `Accumulator.PairUpdateEffect` | main.py:23-32 | `update_pair_counts` adds `PairIncrement(s, x, y)` to each key (x, y) and changes nothing else; new keys are exactly those incremented |
| `Accumulator.DistinctPairUpdate` | main.py:29-32 | for a set-like itemset, (x, y) grows by exactly 1 when x and y are two different items of it; every other key keeps its count |
| `Accumulator.PairSymmetryPreserved` | main.py:31-32 | a symmetric pair table (same keys and counts both ways) stays symmetric |
| `Accumulator.SmallItemsetUnchanged` | main.py:29-30 | an itemset with fewer than two items leaves the pair table unchanged |
| `Accumulator.PairKeysDistinct` | main.py:29-32 | for a set-like itemset, the new keys are the ordered pairs of two different items of it |
| `Accumulator.PairKeyCount` | main.py:29-32 | from an empty table, k distinct items give exactly k * (k - 1) keys, and none is a self-pair |
| `Accumulator.PairUpdateOrderIndependent` | main.py:29-32 | two iteration orders of the same itemset give the same pair table |
| `Accumulator.PairUpdatesCommute` | main.py:73-74 | two itemsets added in either order give the same pair table |
| `Accumulator.ItemUpdateEffect` | main.py:36-37 | each item's count grows by its number of occurrences; the new keys are the items of the iterable |
| `Accumulator.ItemUpdateOrderIndependent` | main.py:36-37 | two iteration orders of the same items give the same item table |
| `Accumulator.ItemUpdatesCommute` | main.py:73-75 | two itemsets added in either order give the same item table |
| `Accumulator.PairUpdateEffectAll` | main.py:23-32 | every key (x, y) of `update_pair_counts`'s table grows by `PairIncrement(s, x, y)` |
| `Accumulator.UpdatePairCounts` | main.py:23-32 | updates the caller's table in place to `AddPairs` of its old contents; each key (x, y) grows by `PairIncrement` |
| `Accumulator.UpdateItemCounts` | main.py:35-37 | updates the caller's table in place to `AddItems` of its old contents; each item grows by its number of occurrences |
| `RuleFilter.Confidence` | main.py:46 | the confidence is positive when the pair was seen, and at most 1 when the pair was seen no more often than its antecedent |
| `RuleFilter.FilterRulesByConf` | main.py:40-49 | every result key is a table key. A key is kept exactly when its antecedent count reaches `countMin` and its confidence reaches `threshold`, and its value is that confidence |
| `RuleFilter.RulesMonotone` | main.py:45-47 | raising `threshold` or `countMin` keeps a subset of the rules, with the same confidences |
| `Miner.AddReceiptKeepsAntecedentsCounted` | main.py:73-75 | one loop iteration keeps every pair's antecedent counted at least once |
| `Miner.AccumulatedAntecedentsCounted` | main.py:70-76 | on the driver's tables every pair's antecedent count is at least 1, so the filter never divides by zero |
| `Miner.AddReceiptKeepsPairsBounded` | main.py:73-75 | a set-like itemset keeps each pair count between 1 and its antecedent's count |
| `Miner.AccumulatedPairsBounded` | main.py:70-75 | from set-like receipts, each pair count lies between 1 and its antecedent's count |
| `Miner.MinedConfidencesInUnitInterval` | main.py:70-76 | from set-like receipts, every mined confidence lies in (0, 1] |
| `Miner.AddReceiptsCommute` | main.py:73-75 | two loop iterations in either order give the same tables |
| `Miner.AddReceiptFirstOrLast` | main.py:73-75 | a receipt processed first gives the same tables as when processed after all the others |
| `Miner.AccumulateAppend` | main.py:73-75 | running the loop over u + v is running it over u, then over v |
| `Miner.AccumulatePermutation` | main.py:73-75 | the tables depend only on the multiset of receipts, not on their order |
| `Miner.MinedRulesOrderIndependent` | main.py:70-76 | permuting the receipts changes neither the tables nor the rules |
| `Miner.AccumulatedSymmetric` | main.py:70-75 | every pair table the driver's loop builds is symmetric: (a, b) and (b, a) are keys together, with equal counts |
| `Miner.AccumulateItemsetOrder` | main.py:73-75 | receipts holding the same items, receipt by receipt, in any iteration order, give equal tables |
| `Miner.MinedRulesItemsetOrder` | main.py:70-76 | the iteration order inside each itemset does not change the mined rules |
| `Miner.FindAssocRules` | main.py:70-76 | returns the rules that `Rules` gives for the tables of all receipts; no receipts give no rules |
| `Scenarios.MakeItemsetsOfWords` | test.py:19-20 | `make_itemsets(["adam", "fam"])` gives the sets {a, d, m} and {f, a, m} |
| `Scenarios.MakeItemsetsOfWordLists` | test.py:21 | `make_itemsets([["milk", "milk", "fish"], ["chicken", "egg"]])` gives {milk, fish} and {chicken, egg}, each with two items |
| `Scenarios.MakeItemsetsOfTwoLists` | test.py:21 | the same for any four items, the two of each list being different |
| `Scenarios.TwoItemsetsPairKeyCount` | main.py:29-32 | from an empty table, two set-like itemsets give the ordered pairs of each, with shared pairs counted once |
| `Scenarios.PairCountsOfErrorDolor` | test.py:24-36 | `set("error")` gives 6 pair keys, `set("dolor")` brings the total to 16, and the table is symmetric |
| `Scenarios.PairCountsOfTwoItemsets` | test.py:24-36 | a 3-item itemset gives 6 pair keys; a 4-item itemset sharing 2 items with it brings the total to 16; the table is symmetric |
| `Scenarios.ItemCountsOfError` | test.py:39-44 | the string "error" gives the item table {e: 1, r: 3, o: 1} |
| `Scenarios.ItemCountsOfFiveLetters` | test.py:39-44 | any three different items in the order e, r, r, o, r give the item table {e: 1, r: 3, o: 1} |
| `Scenarios.FilterOfThreeRules` | test.py:47-62 | at threshold 0.5 the filter keeps man => woman (5/7) and red fish => blue fish (7/11), and drops bird => bee |
| `Scenarios.ThreeRulesOver` | test.py:47-62 | the filter case of test.py for any three different antecedents: exactly the first and third rules are kept, with confidences 5/7 and 7/11 |
| `Scenarios.TablesOfThreeSets` | test.py:65-67 | the baskets {a, b, c}, {a, c}, {a} in any iteration order give a: 3, b: 1, c: 2, count (a, c) = count (c, a) = 2 and 1 for every other pair |
| `Scenarios.TablesOfThreeBaskets` | test.py:65-67 | the same tables for `[set("abbc"), set("ac"), set("a")]` |
| `Scenarios.RulesOfThreeTables` | test.py:65-73 | for the three-basket tables, over any three different items, the filter at 0.6 keeps exactly a => c (2/3), b => a, b => c and c => a (1 each) |
| `Scenarios.RulesOfThreeBaskets` | test.py:65-73 | at threshold 0.6 the rules are exactly a => c (2/3), b => a, b => c and c => a (1 each); a => b and c => b are dropped |

## Notes on the model

- Itemsets are sequences: a Python set is iterated in an order the program
  does not control. `Dedup` fixes first-occurrence order. The tables and the
  rules are the same for every order: `Miner.AccumulateItemsetOrder` and
  `Miner.MinedRulesItemsetOrder` cover the iteration order inside each
  itemset, and `Miner.MinedRulesOrderIndependent` covers the order of the
  receipts.
- `count_min` defaults to 1 in `filter_rules_by_conf` and `find_assoc_rules`
  (main.py:40, 70); the methods `FilterRulesByConf` and `FindAssocRules`
  carry the same default.
- The accumulators are not limited to set-like itemsets, and neither is the
  source: `update_item_counts` over the string "error" counts 'r' three
  times. So item counts are occurrence counts. They equal the number of
  baskets containing the item only when each itemset has no repeats, as
  `make_itemsets` ensures. The model follows the code.
- For the baskets {a, b, c}, {a, c}, {a} at threshold 0.6, count(b, c) =
  count(b) = 1, so b => c is kept with confidence 1; test.py:72 asserts it
  (`Scenarios.RulesOfThreeBaskets`).

## Left out

- `normalize_string`, `tokenize_string` and `get_baskets` (main.py:6-16, 79-82) are left out. They rest on Unicode `isalpha`, `isspace` and `lower`, on `re.split` and on `splitlines`, which are library behaviour outside the model.
- `gen_rule_str` and `print_rules` (main.py:52-67) are left out. They are text formatting, float-keyed sorting and printing.
- The `__main__` demo (main.py:85-98) is left out. It is a driver that prints.
- The runtime type assertions (main.py:7, 12, 28, 61) are replaced by static types.
- Confidence: Python float division and its rounding are replaced by exact `real` division. The `math.isclose` tolerance of test.py:62 is not needed, because the model states exact values.
- FilterRulesByConf: requires `ConfidenceDefined`. The source raises `ZeroDivisionError` when `count_min <= 0` and an antecedent count is 0. This never happens on the tables `find_assoc_rules` builds (`Miner.AccumulatedAntecedentsCounted`).
- FilterRulesByConf: reading `item_counts[a]` on a `defaultdict` inserts `a -> 0` into the caller's table (main.py:44). The model reads through `Get` and does not model that insertion. With a plain `dict`, a missing antecedent raises `KeyError` in the source; the model reads 0 instead.
- `count_min` is an integer and `threshold` a real. Python would also accept other numeric types.
- Receipts and itemsets are finite sequences. Python accepts any iterable, including a one-shot generator.
