/**
 * `ToDictionaryAllowDuplicateKeys`: fold a sequence into a dictionary where a
 * later item with the same key overwrites an earlier one.
 */
module EnumerableExtensions {

  /** The last-wins fold of `items`, processed from first to last. */
  function LastWins<T, K, V>(items: seq<T>, getKey: T -> K, getValue: T -> V): map<K, V>
  {
    if items == [] then map[]
    else
      var last := items[|items| - 1];
      LastWins(items[..|items| - 1], getKey, getValue)[getKey(last) := getValue(last)]
  }

  /** The keys `items` produce. */
  ghost function KeysOf<T, K>(items: seq<T>, getKey: T -> K): set<K>
  {
    set i | 0 <= i < |items| :: getKey(items[i])
  }

  /** No two items share a key. */
  ghost predicate DistinctKeys<T, K>(items: seq<T>, getKey: T -> K)
  {
    forall i, j :: 0 <= i < j < |items| ==> getKey(items[i]) != getKey(items[j])
  }

  /** The dictionary is filled item by item; `dict[key] = value` never throws on a duplicate. */
  method ToDictionaryAllowDuplicateKeys<T, K, V>(e: seq<T>, getKey: T -> K, getValue: T -> V)
    returns (dict: map<K, V>)
    ensures dict == LastWins(e, getKey, getValue)
  {
    dict := map[];
    for i := 0 to |e|
      invariant dict == LastWins(e[..i], getKey, getValue)
    {
      assert e[..i + 1][..i] == e[..i];
      dict := dict[getKey(e[i]) := getValue(e[i])];
    }
    assert e[..|e|] == e;
  }

  /** The key set is exactly the set of keys of the input (empty for an empty input). */
  lemma {:induction false} LastWinsKeys<T, K, V>(items: seq<T>, getKey: T -> K, getValue: T -> V)
    ensures LastWins(items, getKey, getValue).Keys == KeysOf(items, getKey)
  {
    if items != [] {
      var init := items[..|items| - 1];
      LastWinsKeys(init, getKey, getValue);
      assert KeysOf(items, getKey) == KeysOf(init, getKey) + {getKey(items[|items| - 1])} by {
        forall k | k in KeysOf(items, getKey) ensures k in KeysOf(init, getKey) + {getKey(items[|items| - 1])} {
          var i :| 0 <= i < |items| && getKey(items[i]) == k;
          if i < |items| - 1 { assert init[i] == items[i]; }
        }
        forall k | k in KeysOf(init, getKey) ensures k in KeysOf(items, getKey) {
          var i :| 0 <= i < |init| && getKey(init[i]) == k;
          assert items[i] == init[i];
        }
      }
    }
  }

  /** The value under an item's key is that item's value when no later item has the same key. */
  lemma {:induction false} LastWinsValue<T, K, V>(items: seq<T>, getKey: T -> K, getValue: T -> V, i: nat)
    requires i < |items|
    requires forall j :: i < j < |items| ==> getKey(items[j]) != getKey(items[i])
    ensures getKey(items[i]) in LastWins(items, getKey, getValue)
    ensures LastWins(items, getKey, getValue)[getKey(items[i])] == getValue(items[i])
  {
    if i < |items| - 1 {
      var init := items[..|items| - 1];
      assert init[i] == items[i];
      LastWinsValue(init, getKey, getValue, i);
    }
  }

  /** Keys stay distinct after one more item iff they were, and its key is new. */
  lemma DistinctSnoc<T, K>(items: seq<T>, getKey: T -> K)
    requires items != []
    ensures DistinctKeys(items, getKey) <==>
              DistinctKeys(items[..|items| - 1], getKey) && getKey(items[|items| - 1]) !in KeysOf(items[..|items| - 1], getKey)
  {
    var n := |items| - 1;
    var init := items[..n];
    if DistinctKeys(init, getKey) && getKey(items[n]) !in KeysOf(init, getKey) {
      forall a, b | 0 <= a < b < |items| ensures getKey(items[a]) != getKey(items[b]) {
        assert items[a] == init[a];
        if b == n {
          assert getKey(init[a]) in KeysOf(init, getKey);
        } else {
          assert items[b] == init[b];
        }
      }
    }
    if DistinctKeys(items, getKey) {
      forall a, b | 0 <= a < b < |init| ensures getKey(init[a]) != getKey(init[b]) {
        assert items[a] == init[a] && items[b] == init[b];
      }
      forall j | 0 <= j < |init| ensures getKey(init[j]) != getKey(items[n]) {
        assert items[j] == init[j];
      }
    }
  }

  /** At most one entry per item, and exactly one per item iff the keys are distinct. */
  lemma {:induction false} LastWinsSize<T, K, V>(items: seq<T>, getKey: T -> K, getValue: T -> V)
    ensures |LastWins(items, getKey, getValue)| <= |items|
    ensures |LastWins(items, getKey, getValue)| == |items| <==> DistinctKeys(items, getKey)
  {
    if items != [] {
      var n := |items| - 1;
      var init := items[..n];
      var m := LastWins(init, getKey, getValue);
      var k := getKey(items[n]);
      LastWinsSize(init, getKey, getValue);
      LastWinsKeys(init, getKey, getValue);
      DistinctSnoc(items, getKey);
      if k in m {
        assert m[k := getValue(items[n])].Keys == m.Keys;
      } else {
        assert m[k := getValue(items[n])].Keys == m.Keys + {k};
      }
    }
  }
}
