/** Sums of group sizes over the keys of a grouping map. */
module GroupSizes {

  lemma NonEmptyHasMember(keys: set<int>)
    requires keys != {}
    ensures exists k :: k in keys
  {
    if forall k :: k !in keys {
      assert false;
    }
  }

  /** The sum of the sizes of the groups that `keys` names. */
  ghost function SizeSum<T>(groups: map<int, seq<T>>, keys: set<int>): nat
    requires keys <= groups.Keys
    decreases keys
  {
    if keys == {} then 0
    else
      NonEmptyHasMember(keys);
      var k :| k in keys;
      |groups[k]| + SizeSum(groups, keys - {k})
  }

  /** Any key may be taken out of the sum first. */
  lemma {:induction false} SizeSumRemove<T>(groups: map<int, seq<T>>, keys: set<int>, k: int)
    requires keys <= groups.Keys && k in keys
    ensures SizeSum(groups, keys) == |groups[k]| + SizeSum(groups, keys - {k})
    decreases keys
  {
    var j :| j in keys && SizeSum(groups, keys) == |groups[j]| + SizeSum(groups, keys - {j});
    if j != k {
      SizeSumRemove(groups, keys - {j}, k);
      SizeSumRemove(groups, keys - {k}, j);
      assert keys - {j} - {k} == keys - {k} - {j};
    }
  }

  /** The sum depends only on the groups that `keys` names. */
  lemma {:induction false} SizeSumFrame<T>(g1: map<int, seq<T>>, g2: map<int, seq<T>>, keys: set<int>)
    requires keys <= g1.Keys && keys <= g2.Keys
    requires forall k :: k in keys ==> g1[k] == g2[k]
    ensures SizeSum(g1, keys) == SizeSum(g2, keys)
    decreases keys
  {
    if keys != {} {
      NonEmptyHasMember(keys);
      var k :| k in keys;
      SizeSumRemove(g1, keys, k);
      SizeSumRemove(g2, keys, k);
      SizeSumFrame(g1, g2, keys - {k});
    }
  }

  /** Appending one element to one group (made empty if missing) adds one to the total. */
  lemma SizeSumAppend<T>(groups: map<int, seq<T>>, k: int, x: T)
    ensures
      var grown := groups[k := (if k in groups then groups[k] else []) + [x]];
      SizeSum(grown, grown.Keys) == SizeSum(groups, groups.Keys) + 1
  {
    var grown := groups[k := (if k in groups then groups[k] else []) + [x]];
    SizeSumRemove(grown, grown.Keys, k);
    SizeSumFrame(grown, groups, grown.Keys - {k});
    if k in groups {
      SizeSumRemove(groups, groups.Keys, k);
      assert grown.Keys - {k} == groups.Keys - {k};
    } else {
      assert grown.Keys - {k} == groups.Keys;
    }
  }
}
