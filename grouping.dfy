/**
 * `Collectors.groupingBy` over a list, and the `key in :keys` filter of a
 * repository query, with what grouping preserves.
 */
module Grouping {

  predicate Distinct<K(==)>(ks: seq<K>) {
    forall i, j :: 0 <= i < j < |ks| ==> ks[i] != ks[j]
  }

  /** The elements of qs whose key is k, in their original order. */
  function Group<Q, K(==)>(qs: seq<Q>, key: Q -> K, k: K): (g: seq<Q>)
    ensures |g| <= |qs|
    ensures forall q :: q in g ==> q in qs && key(q) == k
  {
    if qs == [] then []
    else Group(qs[..|qs| - 1], key, k) + if key(qs[|qs| - 1]) == k then [qs[|qs| - 1]] else []
  }

  /** The elements of qs whose key is one of ks, in their original order. */
  function KeyIn<Q, K(==)>(qs: seq<Q>, key: Q -> K, ks: seq<K>): (r: seq<Q>)
    ensures |r| <= |qs|
    ensures forall q :: q in r ==> q in qs && key(q) in ks
  {
    if qs == [] then []
    else KeyIn(qs[..|qs| - 1], key, ks) + if key(qs[|qs| - 1]) in ks then [qs[|qs| - 1]] else []
  }

  /** Every element whose key is one of ks passes the filter. */
  lemma {:induction false} KeyInComplete<Q, K>(qs: seq<Q>, key: Q -> K, ks: seq<K>)
    ensures forall q :: q in qs && key(q) in ks ==> q in KeyIn(qs, key, ks)
  {
    if qs != [] {
      var init, last := qs[..|qs| - 1], qs[|qs| - 1];
      KeyInComplete(init, key, ks);
      forall q | q in qs && key(q) in ks
        ensures q in KeyIn(qs, key, ks)
      {
        assert qs == init + [last];
        if q != last {
          assert q in init;
        }
      }
    }
  }

  /** `groupingBy(key)`: each element appended, in order, to the list under its key. */
  function GroupingBy<Q, K(==)>(qs: seq<Q>, key: Q -> K): (m: map<K, seq<Q>>)
    ensures forall k :: k in m ==> m[k] != []
    ensures forall k :: k in m ==> forall q :: q in m[k] ==> q in qs && key(q) == k
  {
    if qs == [] then map[]
    else
      var m := GroupingBy(qs[..|qs| - 1], key);
      var q := qs[|qs| - 1];
      m[key(q) := (if key(q) in m then m[key(q)] else []) + [q]]
  }

  /** Sum of the sizes of the lists a map holds under ks (a key it lacks counts 0). */
  function TotalSize<K(==), Q>(m: map<K, seq<Q>>, ks: seq<K>): nat {
    if ks == [] then 0 else (if ks[0] in m then |m[ks[0]]| else 0) + TotalSize(m, ks[1..])
  }

  /** Sum of the group sizes of qs over ks. */
  function SumGroups<Q, K(==)>(qs: seq<Q>, key: Q -> K, ks: seq<K>): nat {
    if ks == [] then 0 else |Group(qs, key, ks[0])| + SumGroups(qs, key, ks[1..])
  }

  /**
   * A key is in groupingBy exactly when it occurs, and its list is that key's group:
   * every element once, under its own key, in input order.
   */
  lemma {:induction false} GroupingByAt<Q, K>(qs: seq<Q>, key: Q -> K, k: K)
    ensures k in GroupingBy(qs, key) <==> Group(qs, key, k) != []
    ensures k in GroupingBy(qs, key) ==> GroupingBy(qs, key)[k] == Group(qs, key, k)
  {
    if qs != [] {
      var init, q := qs[..|qs| - 1], qs[|qs| - 1];
      GroupingByAt(init, key, k);
      if k == key(q) {
        assert Group(qs, key, k) == Group(init, key, k) + [q];
      }
    }
  }

  /** A group holds each element of its key exactly as often as the input does, and no other element. */
  lemma {:induction false} GroupCount<Q, K>(qs: seq<Q>, key: Q -> K, k: K, q: Q)
    ensures multiset(Group(qs, key, k))[q] == if key(q) == k then multiset(qs)[q] else 0
  {
    if qs != [] {
      GroupCount(qs[..|qs| - 1], key, k, q);
      assert qs == qs[..|qs| - 1] + [qs[|qs| - 1]];
    }
  }

  /** Filtering by `key in ks` first does not change the group of a key in ks, and empties the others. */
  lemma {:induction false} GroupOfKeyIn<Q, K>(qs: seq<Q>, key: Q -> K, ks: seq<K>, k: K)
    ensures Group(KeyIn(qs, key, ks), key, k) == if k in ks then Group(qs, key, k) else []
  {
    if qs != [] {
      GroupOfKeyIn(qs[..|qs| - 1], key, ks, k);
      var init := KeyIn(qs[..|qs| - 1], key, ks);
      var q := qs[|qs| - 1];
      if key(q) in ks {
        assert KeyIn(qs, key, ks) == init + [q];
        assert (init + [q])[..|init|] == init;
        assert Group(init + [q], key, k) == Group(init, key, k) + if key(q) == k then [q] else [];
      } else {
        assert KeyIn(qs, key, ks) == init;
      }
      assert Group(qs, key, k) == Group(qs[..|qs| - 1], key, k) + if key(q) == k then [q] else [];
    }
  }

  /**
   * Grouping the result of a `key in ks` query: the keys are the members of ks that
   * some element has, and each list is that key's group in the unfiltered input.
   */
  lemma GroupingByOfKeyIn<Q, K>(qs: seq<Q>, key: Q -> K, ks: seq<K>)
    ensures forall k :: k in GroupingBy(KeyIn(qs, key, ks), key) ==> k in ks && Group(qs, key, k) != []
    ensures forall k :: k in ks && Group(qs, key, k) != [] ==> k in GroupingBy(KeyIn(qs, key, ks), key)
    ensures forall k :: k in GroupingBy(KeyIn(qs, key, ks), key) ==>
                          GroupingBy(KeyIn(qs, key, ks), key)[k] == Group(qs, key, k)
  {
    var g := GroupingBy(KeyIn(qs, key, ks), key);
    forall k | k in g
      ensures k in ks && Group(qs, key, k) != [] && g[k] == Group(qs, key, k)
    {
      GroupingByAt(KeyIn(qs, key, ks), key, k);
      GroupOfKeyIn(qs, key, ks, k);
    }
    forall k | k in ks && Group(qs, key, k) != []
      ensures k in g
    {
      GroupingByAt(KeyIn(qs, key, ks), key, k);
      GroupOfKeyIn(qs, key, ks, k);
    }
  }

  lemma {:induction false} SumGroupsLast<Q, K>(qs: seq<Q>, key: Q -> K, ks: seq<K>)
    requires qs != [] && Distinct(ks)
    ensures SumGroups(qs, key, ks) ==
            SumGroups(qs[..|qs| - 1], key, ks) + if key(qs[|qs| - 1]) in ks then 1 else 0
  {
    if ks != [] {
      assert Distinct(ks[1..]) by {
        forall i, j | 0 <= i < j < |ks[1..]|
          ensures ks[1..][i] != ks[1..][j]
        {
          assert ks[1..][i] == ks[i + 1] && ks[1..][j] == ks[j + 1];
        }
      }
      assert ks[0] !in ks[1..];
      assert ks == [ks[0]] + ks[1..];
      SumGroupsLast(qs, key, ks[1..]);
    }
  }

  /** When every key occurs in the distinct list ks, the group sizes over ks add up to the input size. */
  lemma {:induction false} SumGroupsAll<Q, K>(qs: seq<Q>, key: Q -> K, ks: seq<K>)
    requires Distinct(ks)
    requires forall q :: q in qs ==> key(q) in ks
    ensures SumGroups(qs, key, ks) == |qs|
  {
    if qs == [] {
      SumGroupsEmpty(qs, key, ks);
    } else {
      SumGroupsLast(qs, key, ks);
      assert qs[|qs| - 1] in qs;
      SumGroupsAll(qs[..|qs| - 1], key, ks);
    }
  }

  lemma {:induction false} SumGroupsEmpty<Q, K>(qs: seq<Q>, key: Q -> K, ks: seq<K>)
    requires qs == []
    ensures SumGroups(qs, key, ks) == 0
  {
    if ks != [] {
      SumGroupsEmpty(qs, key, ks[1..]);
    }
  }

  lemma {:induction false} TotalSizeOfGroupingBy<Q, K>(qs: seq<Q>, key: Q -> K, ks: seq<K>)
    ensures TotalSize(GroupingBy(qs, key), ks) == SumGroups(qs, key, ks)
  {
    if ks != [] {
      GroupingByAt(qs, key, ks[0]);
      TotalSizeOfGroupingBy(qs, key, ks[1..]);
    }
  }

  /**
   * Grouping the result of a `key in ks` query, ks distinct, neither drops nor
   * duplicates: the group sizes over ks add up to the number of elements grouped.
   */
  lemma GroupingByLosesNothing<Q, K>(qs: seq<Q>, key: Q -> K, ks: seq<K>)
    requires Distinct(ks)
    ensures TotalSize(GroupingBy(KeyIn(qs, key, ks), key), ks) == |KeyIn(qs, key, ks)|
  {
    TotalSizeOfGroupingBy(KeyIn(qs, key, ks), key, ks);
    SumGroupsAll(KeyIn(qs, key, ks), key, ks);
  }

  /** Two elements under two different keys fall into two singleton groups. */
  lemma GroupOfTwo<Q, K>(q1: Q, q2: Q, key: Q -> K, k1: K, k2: K)
    requires key(q1) == k1 && key(q2) == k2 && k1 != k2
    ensures Group([q1, q2], key, k1) == [q1]
    ensures Group([q1, q2], key, k2) == [q2]
  {
    assert [q1, q2][..1] == [q1];
  }

  /** The total size over two present keys is the sum of their two lists. */
  lemma TotalSizeOfTwo<K, Q>(m: map<K, seq<Q>>, k1: K, k2: K)
    requires k1 in m && k2 in m
    ensures TotalSize(m, [k1, k2]) == |m[k1]| + |m[k2]|
  {
    assert [k1, k2][1..] == [k2] && [k2][1..] == [];
    assert TotalSize(m, [k2]) == |m[k2]| + TotalSize(m, []);
    assert TotalSize(m, [k1, k2]) == |m[k1]| + TotalSize(m, [k2]);
  }
}
