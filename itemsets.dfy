/**
 Itemsets. A basket becomes a Python `set`, which the accumulators iterate in
 some order; here an itemset is the sequence of its items in that order, with
 no item twice.
 */
module Itemsets {

  /** No item occurs twice. */
  predicate Distinct<T(==)>(s: seq<T>)
  {
    forall i, j :: 0 <= i < j < |s| ==> s[i] != s[j]
  }

  /** The items of `s`, forgetting order and repetition. */
  function Elements<T(==)>(s: seq<T>): set<T>
  {
    set x | x in s
  }

  /** A distinct sequence holds each of its items exactly once. */
  lemma {:induction false} DistinctMultiplicity<T>(s: seq<T>, x: T)
    requires Distinct(s)
    ensures multiset(s)[x] == if x in s then 1 else 0
  {
    if s != [] {
      var t := s[1..];
      assert s == [s[0]] + t;
      assert Distinct(t) by {
        forall i, j | 0 <= i < j < |t| ensures t[i] != t[j] {
          assert t[i] == s[i + 1] && t[j] == s[j + 1];
        }
      }
      assert s[0] !in t by {
        forall j | 0 <= j < |t| ensures t[j] != s[0] {
          assert t[j] == s[j + 1];
        }
      }
      DistinctMultiplicity(t, x);
    }
  }

  /** A distinct sequence has as many items as its set of elements. */
  lemma {:induction false} DistinctCardinality<T>(s: seq<T>)
    requires Distinct(s)
    ensures |Elements(s)| == |s|
  {
    if s != [] {
      var t := s[..|s| - 1];
      var last := s[|s| - 1];
      assert Distinct(t);
      assert last !in t;
      assert Elements(s) == Elements(t) + {last};
      DistinctCardinality(t);
    }
  }

  /** `set(items)`: the items of `s` in first-occurrence order, each once. */
  function Dedup<T(==,!new)>(s: seq<T>): (r: seq<T>)
    ensures Distinct(r)
    ensures forall x :: x in r <==> x in s
  {
    if s == [] then []
    else
      var rest := Dedup(s[..|s| - 1]);
      var last := s[|s| - 1];
      assert s == s[..|s| - 1] + [last];
      if last in rest then rest else rest + [last]
  }

  /** `make_itemsets`: every receipt turned into its set of items. */
  function MakeItemsets<T(==,!new)>(receipts: seq<seq<T>>): (r: seq<seq<T>>)
    ensures |r| == |receipts|
    ensures forall i :: 0 <= i < |r| ==>
      Distinct(r[i]) && forall x :: x in r[i] <==> x in receipts[i]
  {
    seq(|receipts|, i requires 0 <= i < |receipts| => Dedup(receipts[i]))
  }
}
