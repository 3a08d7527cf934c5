/**
 The concrete scenarios of the repository's tests (test.py), stated over the
 model. Each basket is run through `Dedup` (Python's `set`), so the lemmas
 hold for whatever order the set is iterated in.
 */
module Scenarios {
  import opened Counting
  import opened Itemsets
  import opened Accumulator
  import opened RuleFilter
  import opened Miner

  /** `make_itemsets(["adam", "fam"])` gives the sets {a, d, m} and {f, a, m}. */
  lemma MakeItemsetsOfWords()
    ensures var r := MakeItemsets(["adam", "fam"]);
            |r| == 2 && Elements(r[0]) == {'a', 'd', 'm'} && Elements(r[1]) == {'f', 'a', 'm'}
            && |r[0]| == 3 && |r[1]| == 3
  {
    var r := MakeItemsets(["adam", "fam"]);
    assert Elements(r[0]) == {'a', 'd', 'm'};
    assert Elements(r[1]) == {'f', 'a', 'm'};
    DistinctCardinality(r[0]);
    DistinctCardinality(r[1]);
  }

  /** `make_itemsets([["milk", "milk", "fish"], ["chicken", "egg"]])` gives
      the sets {milk, fish} and {chicken, egg}: the repeated word is kept once. */
  lemma MakeItemsetsOfWordLists()
    ensures var r := MakeItemsets([["milk", "milk", "fish"], ["chicken", "egg"]]);
            |r| == 2 && Elements(r[0]) == {"milk", "fish"} && Elements(r[1]) == {"chicken", "egg"}
            && |r[0]| == 2 && |r[1]| == 2
  {
    assert "milk"[0] != "fish"[0];
    assert |"chicken"| != |"egg"|;
    MakeItemsetsOfTwoLists("milk", "fish", "chicken", "egg");
  }

  /** `MakeItemsetsOfWordLists` for any four items with the two in each list
      different. */
  lemma MakeItemsetsOfTwoLists<T(!new)>(milk: T, fish: T, chicken: T, egg: T)
    requires milk != fish && chicken != egg
    ensures var r := MakeItemsets([[milk, milk, fish], [chicken, egg]]);
            |r| == 2 && Elements(r[0]) == {milk, fish} && Elements(r[1]) == {chicken, egg}
            && |r[0]| == 2 && |r[1]| == 2
  {
    var r := MakeItemsets([[milk, milk, fish], [chicken, egg]]);
    assert Elements(r[0]) == {milk, fish};
    assert Elements(r[1]) == {chicken, egg};
    DistinctCardinality(r[0]);
    DistinctCardinality(r[1]);
  }

  /** The ordered pairs of two sets that share members. */
  lemma OrderedPairsIntersection<T>(A: set<T>, B: set<T>)
    ensures OrderedPairs(A) * OrderedPairs(B) == OrderedPairs(A * B)
  {
    forall p | p in OrderedPairs(A) * OrderedPairs(B)
      ensures p in OrderedPairs(A * B)
    {
      var x, y :| x in A && y in A && x != y && p == (x, y);
      var x', y' :| x' in B && y' in B && x' != y' && p == (x', y');
    }
  }

  /** Two set-like itemsets added to an empty table give the ordered pairs of
      each, the pairs they share counted once. */
  lemma TwoItemsetsPairKeyCount<T(!new)>(s1: seq<T>, s2: seq<T>)
    requires Distinct(s1) && Distinct(s2)
    ensures var A, B := Elements(s1), Elements(s2);
            |AddPairs(AddPairs(map[], s1), s2)|
              == |A| * (|A| - 1) + |B| * (|B| - 1) - |A * B| * (|A * B| - 1)
  {
    var A, B := Elements(s1), Elements(s2);
    var first := AddPairs(map[], s1);
    PairKeysDistinct(map[], s1);
    PairKeysDistinct(first, s2);
    assert AddPairs(first, s2).Keys == OrderedPairs(A) + OrderedPairs(B);
    OrderedPairsCardinality(A);
    OrderedPairsCardinality(B);
    OrderedPairsCardinality(A * B);
    OrderedPairsIntersection(A, B);
  }

  /** The members of `set("error")`. */
  lemma ElementsOfError()
    ensures Elements(Dedup("error")) == {'e', 'r', 'o'}
  {
    forall x
      ensures x in Elements(Dedup("error")) <==> x in {'e', 'r', 'o'}
    {
      assert x in Dedup("error") <==> x in "error";
      assert x in "error" <==> x == 'e' || x == 'r' || x == 'o';
    }
  }

  /** The members of `set("dolor")`. */
  lemma ElementsOfDolor()
    ensures Elements(Dedup("dolor")) == {'d', 'o', 'l', 'r'}
  {
    forall x
      ensures x in Elements(Dedup("dolor")) <==> x in {'d', 'o', 'l', 'r'}
    {
      assert x in Dedup("dolor") <==> x in "dolor";
      assert x in "dolor" <==> x == 'd' || x == 'o' || x == 'l' || x == 'r';
    }
  }

  /** `set("error")` gives 6 pair keys; adding `set("dolor")` brings the
      total to 16, and the table stays symmetric. */
  lemma PairCountsOfErrorDolor()
    ensures var first := AddPairs(map[], Dedup("error"));
            var second := AddPairs(first, Dedup("dolor"));
            |first| == 6 && |second| == 16 && Symmetric(second)
  {
    ElementsOfError();
    ElementsOfDolor();
    var E, D := Elements(Dedup("error")), Elements(Dedup("dolor"));
    assert |E| == 3 && |D| == 4;
    assert |E * D| == 2 by {
      assert E * D == {'o', 'r'};
    }
    PairCountsOfTwoItemsets(Dedup("error"), Dedup("dolor"));
  }

  /** Pair keys and symmetry after a 3-item itemset and a 4-item itemset
      sharing 2 items. */
  lemma PairCountsOfTwoItemsets<T(!new)>(s1: seq<T>, s2: seq<T>)
    requires Distinct(s1) && Distinct(s2)
    requires |Elements(s1)| == 3 && |Elements(s2)| == 4 && |Elements(s1) * Elements(s2)| == 2
    ensures var first := AddPairs(map[], s1);
            var second := AddPairs(first, s2);
            |first| == 6 && |second| == 16 && Symmetric(second)
  {
    var first := AddPairs(map[], s1);
    PairKeyCount(s1);
    DistinctCardinality(s1);
    TwoItemsetsPairKeyCount(s1, s2);
    PairSymmetryPreserved(map[], s1);
    PairSymmetryPreserved(first, s2);
  }

  /** `update_item_counts` over the string "error" counts 'r' three times. */
  lemma ItemCountsOfError()
    ensures AddItems(map[], "error") == map['e' := 1, 'r' := 3, 'o' := 1]
  {
    ItemCountsOfFiveLetters('e', 'r', 'o');
  }

  /** `ItemCountsOfError` for any three different items in the order
      e, r, r, o, r. */
  lemma ItemCountsOfFiveLetters<T(!new)>(e: T, r: T, o: T)
    requires e != r && e != o && r != o
    ensures AddItems(map[], [e, r, r, o, r]) == map[e := 1, r := 3, o := 1]
  {
    var s := [e, r, r, o, r];
    var table := AddItems(map[], s);
    var expected := map[e := 1, r := 3, o := 1];
    assert multiset(s) == multiset{e, r, o} + multiset{r, r};
    forall x
      ensures (x in table <==> x in expected) && Get(table, x) == Get(expected, x)
    {
      ItemUpdateEffect(map[], s, x);
    }
    assert table.Keys == expected.Keys;
  }

  /** The filter keeps man => woman (5/7) and red fish => blue fish (7/11)
      at threshold 0.5, and drops bird => bee (3/9). */
  lemma FilterOfThreeRules()
    ensures var pairCounts := map[("man", "woman") := 5, ("bird", "bee") := 3, ("red fish", "blue fish") := 7];
            var itemCounts := map["man" := 7, "bird" := 9, "red fish" := 11];
            ConfidenceDefined(pairCounts, itemCounts, 1)
            && Rules(pairCounts, itemCounts, 0.5, 1)
               == map[("man", "woman") := 5.0 / 7.0, ("red fish", "blue fish") := 7.0 / 11.0]
  {
    assert |"man"| != |"bird"| && |"man"| != |"red fish"| && |"bird"| != |"red fish"|;
    ThreeRulesOver("man", "woman", "bird", "bee", "red fish", "blue fish");
  }

  /** `FilterOfThreeRules` for any three different antecedents. */
  lemma ThreeRulesOver<T>(man: T, woman: T, bird: T, bee: T, red: T, blue: T)
    requires man != bird && man != red && bird != red
    ensures var pairCounts := map[(man, woman) := 5, (bird, bee) := 3, (red, blue) := 7];
            var itemCounts := map[man := 7, bird := 9, red := 11];
            ConfidenceDefined(pairCounts, itemCounts, 1)
            && Rules(pairCounts, itemCounts, 0.5, 1)
               == map[(man, woman) := 5.0 / 7.0, (red, blue) := 7.0 / 11.0]
  {
    var pairCounts := map[(man, woman) := 5, (bird, bee) := 3, (red, blue) := 7];
    var itemCounts := map[man := 7, bird := 9, red := 11];
    assert Get(itemCounts, man) == 7 && Get(itemCounts, bird) == 9 && Get(itemCounts, red) == 11;
    assert !Kept(pairCounts, itemCounts, 0.5, 1, (bird, bee));
    assert Rules(pairCounts, itemCounts, 0.5, 1).Keys == {(man, woman), (red, blue)};
  }

  /** One set-like receipt adds one to each pair of two of its items and one
      to each of its items. */
  lemma DistinctReceiptStep<T(!new)>(t: Tables<T>, s: seq<T>, x: T, y: T)
    requires Distinct(s)
    ensures Get(AddReceipt(t, s).pairCounts, (x, y)) == Get(t.pairCounts, (x, y)) + if x in s && y in s && x != y then 1 else 0
    ensures Get(AddReceipt(t, s).itemCounts, x) == Get(t.itemCounts, x) + if x in s then 1 else 0
  {
    DistinctPairUpdate(t.pairCounts, s, x, y);
    ItemUpdateEffect(t.itemCounts, s, x);
    DistinctMultiplicity(s, x);
  }

  /** Running the loop over three receipts applies one step per receipt. */
  lemma AccumulateThree<T(!new)>(s1: seq<T>, s2: seq<T>, s3: seq<T>)
    ensures Accumulate([s1, s2, s3])
         == AddReceipt(AddReceipt(AddReceipt(Tables(map[], map[]), s1), s2), s3)
  {
    var t0 := Tables(map[], map[]);
    assert [s1, s2, s3][..2] == [s1, s2] && [s1, s2][..1] == [s1] && [s1][..0] == [];
    assert AccumulateFrom(t0, [s1]) == AddReceipt(t0, s1);
    assert AccumulateFrom(t0, [s1, s2]) == AddReceipt(AddReceipt(t0, s1), s2);
  }

  /** One set-like receipt with members `S`: the step of `DistinctReceiptStep`
      stated over the set. */
  lemma SetReceiptStep<T(!new)>(t: Tables<T>, s: seq<T>, S: set<T>, x: T, y: T)
    requires Distinct(s) && Elements(s) == S
    ensures Get(AddReceipt(t, s).pairCounts, (x, y)) == Get(t.pairCounts, (x, y)) + if x in S && y in S && x != y then 1 else 0
    ensures Get(AddReceipt(t, s).itemCounts, x) == Get(t.itemCounts, x) + if x in S then 1 else 0
  {
    DistinctReceiptStep(t, s, x, y);
    assert x in s <==> x in S;
    assert y in s <==> y in S;
  }

  /** The counts of the baskets {a, b, c}, {a, c}, {a}, key by key. */
  lemma CountsOfThreeSets(s1: seq<char>, s2: seq<char>, s3: seq<char>, x: char, y: char)
    requires Distinct(s1) && Distinct(s2) && Distinct(s3)
    requires Elements(s1) == {'a', 'b', 'c'} && Elements(s2) == {'a', 'c'} && Elements(s3) == {'a'}
    ensures var t := Accumulate([s1, s2, s3]);
            && Get(t.pairCounts, (x, y))
               == (if x in {'a', 'b', 'c'} && y in {'a', 'b', 'c'} && x != y then 1 else 0)
                + (if x in {'a', 'c'} && y in {'a', 'c'} && x != y then 1 else 0)
            && Get(t.itemCounts, x)
               == (if x in {'a', 'b', 'c'} then 1 else 0) + (if x in {'a', 'c'} then 1 else 0) + (if x == 'a' then 1 else 0)
  {
    var t0 := Tables(map[], map[]);
    AccumulateThree(s1, s2, s3);
    SetReceiptStep(t0, s1, {'a', 'b', 'c'}, x, y);
    SetReceiptStep(AddReceipt(t0, s1), s2, {'a', 'c'}, x, y);
    SetReceiptStep(AddReceipt(AddReceipt(t0, s1), s2), s3, {'a'}, x, y);
  }

  /** A pair table whose every key was counted, and whose counts are those of
      the three baskets, is the six pairs of a, b, c. */
  lemma PairTableOfThreeSets(m: map<(char, char), nat>)
    requires forall p :: p in m ==> m[p] >= 1
    requires forall x, y :: Get(m, (x, y))
               == (if x in {'a', 'b', 'c'} && y in {'a', 'b', 'c'} && x != y then 1 else 0)
                + (if x in {'a', 'c'} && y in {'a', 'c'} && x != y then 1 else 0)
    ensures m == map[('a', 'b') := 1, ('b', 'a') := 1, ('a', 'c') := 2,
                     ('c', 'a') := 2, ('b', 'c') := 1, ('c', 'b') := 1]
  {
    var expected := map[('a', 'b') := 1, ('b', 'a') := 1, ('a', 'c') := 2,
                        ('c', 'a') := 2, ('b', 'c') := 1, ('c', 'b') := 1];
    forall p
      ensures (p in m <==> p in expected) && Get(m, p) == Get(expected, p)
    {
      assert Get(m, (p.0, p.1)) == Get(expected, (p.0, p.1));
    }
    assert m.Keys == expected.Keys;
  }

  /** The baskets {a, b, c}, {a, c}, {a}, whatever their iteration order:
      a is in 3 baskets, c in 2, b in 1; a and c meet twice, every other two
      once. */
  lemma TablesOfThreeSets(s1: seq<char>, s2: seq<char>, s3: seq<char>)
    requires Distinct(s1) && Distinct(s2) && Distinct(s3)
    requires Elements(s1) == {'a', 'b', 'c'} && Elements(s2) == {'a', 'c'} && Elements(s3) == {'a'}
    ensures var t := Accumulate([s1, s2, s3]);
            && Get(t.itemCounts, 'a') == 3 && Get(t.itemCounts, 'b') == 1 && Get(t.itemCounts, 'c') == 2
            && t.pairCounts == map[('a', 'b') := 1, ('b', 'a') := 1, ('a', 'c') := 2,
                                   ('c', 'a') := 2, ('b', 'c') := 1, ('c', 'b') := 1]
  {
    var t := Accumulate([s1, s2, s3]);
    forall x, y
      ensures Get(t.pairCounts, (x, y))
               == (if x in {'a', 'b', 'c'} && y in {'a', 'b', 'c'} && x != y then 1 else 0)
                + (if x in {'a', 'c'} && y in {'a', 'c'} && x != y then 1 else 0)
    {
      CountsOfThreeSets(s1, s2, s3, x, y);
    }
    CountsOfThreeSets(s1, s2, s3, 'a', 'a');
    CountsOfThreeSets(s1, s2, s3, 'b', 'b');
    CountsOfThreeSets(s1, s2, s3, 'c', 'c');
    AccumulatedPairsBounded([s1, s2, s3]);
    PairTableOfThreeSets(t.pairCounts);
  }

  /** The tables of `[set("abbc"), set("ac"), set("a")]`. */
  lemma TablesOfThreeBaskets()
    ensures var t := Accumulate(MakeItemsets(["abbc", "ac", "a"]));
            && Get(t.itemCounts, 'a') == 3 && Get(t.itemCounts, 'b') == 1 && Get(t.itemCounts, 'c') == 2
            && t.pairCounts == map[('a', 'b') := 1, ('b', 'a') := 1, ('a', 'c') := 2,
                                   ('c', 'a') := 2, ('b', 'c') := 1, ('c', 'b') := 1]
  {
    var rs := MakeItemsets(["abbc", "ac", "a"]);
    assert rs == [rs[0], rs[1], rs[2]];
    assert Elements(rs[0]) == {'a', 'b', 'c'};
    assert Elements(rs[1]) == {'a', 'c'};
    assert Elements(rs[2]) == {'a'};
    TablesOfThreeSets(rs[0], rs[1], rs[2]);
  }

  /** The filter over the tables of the three baskets, at threshold 0.6. */
  lemma RulesOfThreeTables<T>(itemCounts: map<T, nat>, a: T, b: T, c: T)
    requires a != b && a != c && b != c
    requires Get(itemCounts, a) == 3 && Get(itemCounts, b) == 1 && Get(itemCounts, c) == 2
    ensures var pairCounts := map[(a, b) := 1, (b, a) := 1, (a, c) := 2,
                                  (c, a) := 2, (b, c) := 1, (c, b) := 1];
            && ConfidenceDefined(pairCounts, itemCounts, 1)
            && Rules(pairCounts, itemCounts, 0.6, 1)
               == map[(a, c) := 2.0 / 3.0, (b, a) := 1.0, (b, c) := 1.0, (c, a) := 1.0]
  {
    var pairCounts := map[(a, b) := 1, (b, a) := 1, (a, c) := 2,
                          (c, a) := 2, (b, c) := 1, (c, b) := 1];
    var rules := Rules(pairCounts, itemCounts, 0.6, 1);
    assert !Kept(pairCounts, itemCounts, 0.6, 1, (a, b));
    assert !Kept(pairCounts, itemCounts, 0.6, 1, (c, b));
    assert rules.Keys == {(a, c), (b, a), (b, c), (c, a)};
  }

  /** `find_assoc_rules([set("abbc"), set("ac"), set("a")], 0.6)` keeps b => a,
      a => c, c => a and b => c, and drops a => b (1/3) and c => b (1/2). */
  lemma RulesOfThreeBaskets()
    ensures MinedRules(MakeItemsets(["abbc", "ac", "a"]), 0.6, 1)
         == map[('a', 'c') := 2.0 / 3.0, ('b', 'a') := 1.0, ('b', 'c') := 1.0, ('c', 'a') := 1.0]
  {
    TablesOfThreeBaskets();
    RulesOfThreeTables(Accumulate(MakeItemsets(["abbc", "ac", "a"])).itemCounts, 'a', 'b', 'c');
  }
}
