/**
 Count tables of the miner. The source keeps its counts in `defaultdict(int)`
 tables, where reading an absent key yields 0 and `t[k] += 1` inserts the key
 on first use. Here a table is a `map<K, nat>` read through `Get`, and the
 mutable table itself is the class `CountTable`.
 */
module Counting {

  /** The count of `k` in `m`: the stored value, or 0 when `k` is absent. */
  function Get<K>(m: map<K, nat>, k: K): nat
  {
    if k in m then m[k] else 0
  }

  /** `m[k] += 1` on a default-zero table: `k` becomes a key, its count grows
      by one and no other count moves. */
  function Inc<K(!new)>(m: map<K, nat>, k: K): (r: map<K, nat>)
    ensures r.Keys == m.Keys + {k}
    ensures Get(r, k) == Get(m, k) + 1
    ensures forall j :: j != k ==> Get(r, j) == Get(m, j)
  {
    m[k := Get(m, k) + 1]
  }

  /** A `defaultdict(int)` that its callers update in place. */
  class CountTable<K(==,!new)> {
    var counts: map<K, nat>

    /** `defaultdict(int)`: a table with no keys. */
    constructor ()
      ensures counts == map[]
    {
      counts := map[];
    }

    /** `table[k] += 1`. */
    method Increment(k: K)
      modifies this
      ensures counts == Inc(old(counts), k)
    {
      counts := Inc(counts, k);
    }
  }
}
