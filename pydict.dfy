/**
 * Python's built-in `dict` as the watcher uses it: a finite map that
 * remembers the order in which its keys were FIRST inserted. Assigning to a
 * key that is already present overwrites the value and keeps the key's place.
 */
module PyDict {
  import opened Wrappers

  datatype Dict<K, V> = Dict(keys: seq<K>, vals: map<K, V>)

  /** The keys are listed once each, and exactly the keys of the map are listed. */
  ghost predicate Valid<K, V>(d: Dict<K, V>) {
    && (forall i, j | 0 <= i < j < |d.keys| :: d.keys[i] != d.keys[j])
    && (forall k | k in d.vals :: k in d.keys)
    && (forall i | 0 <= i < |d.keys| :: d.keys[i] in d.vals)
  }

  /** `{}` */
  function Empty<K, V>(): (d: Dict<K, V>)
    ensures Valid(d) && d.keys == [] && d.vals == map[]
  {
    Dict([], map[])
  }

  /** `d[k] = v` */
  function Set<K, V>(d: Dict<K, V>, k: K, v: V): (r: Dict<K, V>)
    requires Valid(d)
    ensures Valid(r)
    ensures k in r.vals && r.vals[k] == v
    ensures r.vals.Keys == d.vals.Keys + {k}
    ensures forall k' | k' != k && k' in d.vals :: r.vals[k'] == d.vals[k']
    // every key keeps its position; a new key goes last
    ensures d.keys <= r.keys
    ensures k in d.vals ==> r.keys == d.keys
    ensures k !in d.vals ==> r.keys == d.keys + [k]
  {
    if k in d.vals then Dict(d.keys, d.vals[k := v])
    else Dict(d.keys + [k], d.vals[k := v])
  }

  /** `for k, v in items: d[k] = v` */
  function SetAll<K, V>(d: Dict<K, V>, items: seq<(K, V)>): (r: Dict<K, V>)
    requires Valid(d)
    ensures Valid(r) && d.keys <= r.keys
  {
    if |items| == 0 then d
    else
      var last := items[|items| - 1];
      Set(SetAll(d, items[..|items| - 1]), last.0, last.1)
  }

  /** One more item is one more assignment. */
  lemma SetAllSnoc<K, V>(d: Dict<K, V>, items: seq<(K, V)>, k: K, v: V)
    requires Valid(d)
    ensures SetAll(d, items + [(k, v)]) == Set(SetAll(d, items), k, v)
  {
    assert (items + [(k, v)])[..|items|] == items;
  }

  /** Assigning two runs of items is assigning the first, then the second. */
  lemma {:induction false} SetAllAppend<K, V>(d: Dict<K, V>, xs: seq<(K, V)>, ys: seq<(K, V)>)
    requires Valid(d)
    ensures SetAll(d, xs + ys) == SetAll(SetAll(d, xs), ys)
  {
    if |ys| > 0 {
      var init := ys[..|ys| - 1];
      SetAllAppend(d, xs, init);
      AppendInit(xs, ys);
    } else {
      assert xs + ys == xs;
    }
  }

  /** The keys the items carry. */
  function ItemKeys<K, V>(items: seq<(K, V)>): set<K> {
    if |items| == 0 then {} else ItemKeys(items[..|items| - 1]) + {items[|items| - 1].0}
  }

  lemma {:induction false} ItemKeysSpec<K, V>(items: seq<(K, V)>, k: K)
    ensures k in ItemKeys(items) <==> exists i | 0 <= i < |items| :: items[i].0 == k
  {
    if |items| > 0 {
      var init := items[..|items| - 1];
      ItemKeysSpec(init, k);
      if k in ItemKeys(init) {
        var i :| 0 <= i < |init| && init[i].0 == k;
        assert items[i].0 == k;
      }
      if i :| 0 <= i < |items| - 1 && items[i].0 == k {
        assert init[i].0 == k;
      }
    }
  }

  /** The keys afterwards are the keys before and the keys of the items. */
  lemma {:induction false} SetAllKeys<K, V>(d: Dict<K, V>, items: seq<(K, V)>)
    requires Valid(d)
    ensures SetAll(d, items).vals.Keys == d.vals.Keys + ItemKeys(items)
  {
    if |items| > 0 {
      SetAllKeys(d, items[..|items| - 1]);
    }
  }

  /** Last write wins: a key holds the value of the last item that carries it. */
  lemma {:induction false} SetAllLastWins<K, V>(d: Dict<K, V>, items: seq<(K, V)>, i: nat)
    requires Valid(d)
    requires i < |items|
    requires forall j | i < j < |items| :: items[j].0 != items[i].0
    ensures items[i].0 in SetAll(d, items).vals && SetAll(d, items).vals[items[i].0] == items[i].1
  {
    if i < |items| - 1 {
      var init := items[..|items| - 1];
      assert forall j | i < j < |init| :: init[j] == items[j];
      SetAllLastWins(d, init, i);
    }
  }

  /** A key no item carries keeps its value. */
  lemma {:induction false} SetAllUntouched<K, V>(d: Dict<K, V>, items: seq<(K, V)>, k: K)
    requires Valid(d) && k in d.vals
    requires forall j | 0 <= j < |items| :: items[j].0 != k
    ensures k in SetAll(d, items).vals && SetAll(d, items).vals[k] == d.vals[k]
  {
    if |items| > 0 {
      SetAllUntouched(d, items[..|items| - 1], k);
    }
  }

  /** A key is present afterwards exactly when it was before or an item carries it. */
  lemma SetAllHas<K, V>(d: Dict<K, V>, items: seq<(K, V)>, k: K)
    requires Valid(d)
    ensures k in SetAll(d, items).vals <==> k in d.vals || exists i | 0 <= i < |items| :: items[i].0 == k
  {
    SetAllKeys(d, items);
    ItemKeysSpec(items, k);
  }

  /** Keys keep the place of their first insertion: a key the dictionary did
      not have comes after every key it had, and after every key whose first
      item comes earlier. */
  lemma SetAllOrder<K, V>(d: Dict<K, V>, items: seq<(K, V)>, i: nat, j: nat)
    requires Valid(d)
    requires i < j < |items|
    requires items[j].0 !in d.vals
    requires forall m | 0 <= m < j :: items[m].0 != items[j].0
    ensures items[i].0 in SetAll(d, items[..j]).vals
    ensures items[j].0 !in SetAll(d, items[..j]).vals
    ensures SetAll(d, items[..j + 1]).keys == SetAll(d, items[..j]).keys + [items[j].0]
  {
    var init := items[..j];
    SetAllHas(d, init, items[i].0);
    assert init[i].0 == items[i].0;
    SetAllHas(d, init, items[j].0);
    assert forall m | 0 <= m < |init| :: init[m].0 != items[j].0;
    PrefixOfPrefix(items, j);
  }
}
