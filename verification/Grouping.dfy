/** GROUP BY with COUNT(*), and why its counts add up. */
module Grouping {
  import opened Prelude
  import opened Sorting

  datatype Group<K> = Group(key: K, n: nat)

  function CountOf<K(==)>(keys: seq<K>, k: K): (n: nat)
    ensures n > 0 <==> k in keys
    ensures n <= |keys|
  {
    if keys == [] then 0
    else
      assert keys == [keys[0]] + keys[1..];
      (if keys[0] == k then 1 else 0) + CountOf(keys[1..], k)
  }

  function Without<K(==)>(keys: seq<K>, k: K): seq<K> {
    if keys == [] then [] else (if keys[0] == k then [] else [keys[0]]) + Without(keys[1..], k)
  }

  function Total<K>(groups: seq<Group<K>>): nat {
    if groups == [] then 0 else groups[0].n + Total(groups[1..])
  }

  /** Every key that occurs has one group holding its count; keys that do not occur may have an empty one. */
  ghost predicate IsTally<K(!new)>(groups: seq<Group<K>>, keys: seq<K>) {
    && (forall g :: g in groups ==> g.n == CountOf(keys, g.key))
    && (forall g :: multiset(groups)[g] <= 1)
    && (forall k :: k in keys ==> Group(k, CountOf(keys, k)) in groups)
  }

  lemma {:induction false} WithoutCounts<K>(keys: seq<K>, k: K, other: K)
    ensures |Without(keys, k)| + CountOf(keys, k) == |keys|
    ensures CountOf(Without(keys, k), other) == if other == k then 0 else CountOf(keys, other)
  {
    if keys != [] {
      WithoutCounts(keys[1..], k, other);
      var rest := Without(keys[1..], k);
      if keys[0] != k {
        assert ([keys[0]] + rest)[1..] == rest;
      } else {
        assert [] + rest == rest;
      }
    }
  }

  lemma FirstGroupGone<K(!new)>(groups: seq<Group<K>>, keys: seq<K>)
    requires IsTally(groups, keys) && groups != []
    ensures IsTally(groups[1..], Without(keys, groups[0].key))
  {
    var first, rest := groups[0], groups[1..];
    var fewer := Without(keys, first.key);
    assert groups == [first] + rest;
    assert multiset(groups) == multiset{first} + multiset(rest);
    assert first !in multiset(rest) by { assert multiset(groups)[first] <= 1; }
    forall g ensures multiset(rest)[g] <= 1 {
      assert multiset(groups)[g] <= 1;
    }
    forall g | g in rest ensures g.n == CountOf(fewer, g.key) {
      assert g in groups && g in multiset(rest);
      WithoutCounts(keys, first.key, g.key);
    }
    forall k | k in fewer ensures Group(k, CountOf(fewer, k)) in rest {
      WithoutCounts(keys, first.key, k);
      assert CountOf(fewer, k) > 0;
      assert Group(k, CountOf(keys, k)) in groups;
    }
  }

  lemma NoMembers<K>(keys: seq<K>)
    ensures keys == [] || exists k :: k in keys
  {
    assert keys != [] ==> keys[0] in keys;
  }

  /** The counts of a tally add up to the number of rows. */
  lemma {:induction false} TallyConserves<K(!new)>(groups: seq<Group<K>>, keys: seq<K>)
    requires IsTally(groups, keys)
    ensures Total(groups) == |keys|
    decreases |groups|
  {
    if groups == [] {
      NoMembers(keys);
    } else {
      FirstGroupGone(groups, keys);
      TallyConserves(groups[1..], Without(keys, groups[0].key));
      WithoutCounts(keys, groups[0].key, groups[0].key);
    }
  }

  /** The groups of a query, in the order the keys first occur. */
  function GroupBy<K(==)>(keys: seq<K>): (groups: seq<Group<K>>)
    decreases |keys|
  {
    if keys == [] then []
    else
      var k := keys[0];
      WithoutCounts(keys, k, k);
      [Group(k, CountOf(keys, k))] + GroupBy(Without(keys, k))
  }

  lemma {:induction false} GroupByTallies<K(!new)>(keys: seq<K>)
    ensures IsTally(GroupBy(keys), keys)
    ensures forall g :: g in GroupBy(keys) ==> g.n > 0
    decreases |keys|
  {
    if keys != [] {
      var k := keys[0];
      var first, fewer := Group(k, CountOf(keys, k)), Without(keys, k);
      WithoutCounts(keys, k, k);
      GroupByTallies(fewer);
      var rest := GroupBy(fewer);
      forall g | g in rest ensures g.n == CountOf(keys, g.key) && g != first {
        WithoutCounts(keys, k, g.key);
      }
      assert first !in multiset(rest);
      forall x | x in keys ensures Group(x, CountOf(keys, x)) in [first] + rest {
        WithoutCounts(keys, k, x);
      }
    }
  }

  /** Ordering the groups does not change what they say. */
  lemma SortedTally<K(!new)>(groups: seq<Group<K>>, keys: seq<K>, le: (Group<K>, Group<K>) -> bool)
    requires IsTally(groups, keys)
    ensures IsTally(StableSort(groups, le), keys)
    ensures forall g :: g in StableSort(groups, le) <==> g in groups
  {
    var sorted := StableSort(groups, le);
    forall g ensures g in sorted <==> g in groups {
      assert g in sorted <==> g in multiset(sorted);
      assert g in groups <==> g in multiset(groups);
    }
  }
}
