/** The per-client limit on requests in flight: a count per key, and slots that are guards. */
module ConnLimit {
  import opened Wrappers

  function Count<Key>(counts: map<Key, nat>, k: Key): nat {
    if k in counts then counts[k] else 0
  }

  function Bump<Key>(counts: map<Key, nat>, k: Key): map<Key, nat> {
    counts[k := Count(counts, k) + 1]
  }

  function Unbump<Key>(counts: map<Key, nat>, k: Key): map<Key, nat>
    requires Count(counts, k) > 0
  {
    if counts[k] == 1 then counts - {k} else counts[k := counts[k] - 1]
  }

  // ----- The table -----

  class ConnTable<Key(==, !new)> {
    var counts: map<Key, nat>
    ghost var live: multiset<Key>

    /** The count of a key is the number of its live guards, and no zero is stored. */
    ghost predicate Valid()
      reads this
    {
      forall k :: Count(counts, k) == live[k] && (k in counts ==> counts[k] > 0)
    }

    constructor ()
      ensures Valid() && live == multiset{} && counts == map[]
    {
      counts, live := map[], multiset{};
    }

    method Acquire(k: Key, max: nat) returns (admitted: bool)
      requires Valid()
      modifies this
      ensures Valid()
      ensures admitted <==> old(live[k]) < max
      ensures live == old(live) + (if admitted then multiset{k} else multiset{})
      ensures counts == if admitted then Bump(old(counts), k) else old(counts)
      ensures old(live[k]) <= max ==> live[k] <= max
    {
      if k !in counts { counts := counts[k := 0]; }
      if counts[k] >= max {
        if counts[k] == 0 { counts := counts - {k}; }
        assert counts == old(counts);
        return false;
      }
      counts := counts[k := counts[k] + 1];
      live := live + multiset{k};
      admitted := true;
    }

    /** Dropping a guard: its entry is there, so the decrement cannot underflow. */
    method Release(k: Key)
      requires Valid() && k in live
      modifies this
      ensures Valid() && live == old(live) - multiset{k} && counts == Unbump(old(counts), k)
    {
      if k in counts {
        var n := counts[k];
        counts := counts[k := n - 1];
        if n - 1 == 0 { counts := counts - {k}; }
      }
      live := live - multiset{k};
      assert counts == Unbump(old(counts), k);
    }
  }
}
