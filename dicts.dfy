/**
 * A Python `dict` with string keys: an association list in insertion order.
 * Assigning to a present key replaces its value where it stands; a new key
 * goes to the end.  Building a dict from a list of pairs (`dict(items)`)
 * assigns the pairs one after another.
 */
module Dicts {
  import opened Wrappers

  datatype Item<V> = Item(key: string, value: V)

  type Dict<V> = seq<Item<V>>

  function Keys<V>(d: Dict<V>): set<string> {
    set i | 0 <= i < |d| :: d[i].key
  }

  predicate DistinctKeys<V>(d: Dict<V>) {
    forall i, j :: 0 <= i < j < |d| ==> d[i].key != d[j].key
  }

  /** The position of the first item with key `k`. */
  function IndexOf<V>(d: Dict<V>, k: string): (i: nat)
    requires k in Keys(d)
    ensures i < |d| && d[i].key == k
    ensures forall j :: 0 <= j < i ==> d[j].key != k
  {
    if d[0].key == k then 0
    else
      assert k in Keys(d[1..]) by {
        var i :| 0 <= i < |d| && d[i].key == k;
        assert d[1..][i - 1].key == k;
      }
      1 + IndexOf(d[1..], k)
  }

  /** The first position holding key `k` is `IndexOf(d, k)`. */
  lemma IndexOfIs<V>(d: Dict<V>, k: string, i: nat)
    requires i < |d| && d[i].key == k
    requires forall j :: 0 <= j < i ==> d[j].key != k
    ensures k in Keys(d) && IndexOf(d, k) == i
  {
    assert k in Keys(d);
  }

  /** `d.get(k)`: the value of the first item with key `k`. */
  function Get<V>(d: Dict<V>, k: string): (r: Option<V>)
    ensures r.None? <==> k !in Keys(d)
    ensures r.Some? ==> exists i :: 0 <= i < |d| && d[i] == Item(k, r.value)
  {
    if k in Keys(d) then Some(d[IndexOf(d, k)].value) else None
  }

  /** In a dict with distinct keys, the item at a position is what `get` finds. */
  lemma GetAt<V>(d: Dict<V>, i: nat)
    requires DistinctKeys(d) && i < |d|
    ensures Get(d, d[i].key) == Some(d[i].value)
  {
    assert d[i].key in Keys(d);
  }

  /** `d[k] = v`. */
  function Put<V>(d: Dict<V>, k: string, v: V): (r: Dict<V>)
    ensures Get(r, k) == Some(v)
    ensures forall k' :: k' != k ==> Get(r, k') == Get(d, k')
    ensures Keys(r) == Keys(d) + {k}
    ensures DistinctKeys(d) ==> DistinctKeys(r)
    ensures k !in Keys(d) ==> r == d + [Item(k, v)]
    ensures k in Keys(d) ==> |r| == |d|
    ensures forall i :: 0 <= i < |r| ==> r[i] in d || r[i] == Item(k, v)
  {
    if k in Keys(d) then
      ReplaceSpec(d, k, v);
      d[IndexOf(d, k) := Item(k, v)]
    else
      AppendSpec(d, k, v);
      d + [Item(k, v)]
  }

  /** Replacing the item of a present key keeps the keys and changes only that key's value. */
  lemma ReplaceSpec<V>(d: Dict<V>, k: string, v: V)
    requires k in Keys(d)
    ensures var r := d[IndexOf(d, k) := Item(k, v)];
      && Get(r, k) == Some(v)
      && (forall k' :: k' != k ==> Get(r, k') == Get(d, k'))
      && Keys(r) == Keys(d) + {k}
      && (DistinctKeys(d) ==> DistinctKeys(r))
      && (forall i :: 0 <= i < |r| ==> r[i] in d || r[i] == Item(k, v))
  {
    var i := IndexOf(d, k);
    var r := d[i := Item(k, v)];
    assert Keys(r) == Keys(d) by {
      forall x | x in Keys(d) ensures x in Keys(r) {
        var j :| 0 <= j < |d| && d[j].key == x;
        assert r[j].key == x;
      }
      assert forall j :: 0 <= j < |r| ==> r[j].key == d[j].key;
    }
    IndexOfIs(r, k, i);
    forall k' | k' != k ensures Get(r, k') == Get(d, k') {
      if k' in Keys(d) {
        var j := IndexOf(d, k');
        assert j != i;
        IndexOfIs(r, k', j);
      }
    }
  }

  /** Appending an item with a new key adds that key and changes no other key's value. */
  lemma AppendSpec<V>(d: Dict<V>, k: string, v: V)
    requires k !in Keys(d)
    ensures var r := d + [Item(k, v)];
      && Get(r, k) == Some(v)
      && (forall k' :: k' != k ==> Get(r, k') == Get(d, k'))
      && Keys(r) == Keys(d) + {k}
      && (DistinctKeys(d) ==> DistinctKeys(r))
  {
    var r := d + [Item(k, v)];
    KeysSnoc(d, Item(k, v));
    IndexOfIs(r, k, |d|);
    forall k' | k' != k ensures Get(r, k') == Get(d, k') {
      if k' in Keys(d) {
        var j := IndexOf(d, k');
        IndexOfIs(r, k', j);
      }
    }
    if DistinctKeys(d) {
      forall i, j | 0 <= i < j < |r| ensures r[i].key != r[j].key {
        if j == |d| {
          assert r[i].key == d[i].key;
        }
      }
    }
  }

  /** `dict(items)`. */
  function FromItems<V>(items: seq<Item<V>>): (r: Dict<V>)
    ensures DistinctKeys(r)
    ensures |r| <= |items|
    ensures forall i :: 0 <= i < |r| ==> r[i] in items
  {
    if items == [] then []
    else
      var last := items[|items| - 1];
      Put(FromItems(items[..|items| - 1]), last.key, last.value)
  }

  /** A list of pairs whose keys are already distinct becomes the dict unchanged. */
  lemma {:induction false} FromDistinct<V>(items: seq<Item<V>>)
    requires DistinctKeys(items)
    ensures FromItems(items) == items
  {
    if items != [] {
      DistinctInit(items);
      FromDistinct(items[..|items| - 1]);
      AppendLast(items);
    }
  }

  /** The pairs before the last of a distinct-keyed list are distinct-keyed and miss its key. */
  lemma DistinctInit<V>(items: seq<Item<V>>)
    requires items != [] && DistinctKeys(items)
    ensures DistinctKeys(items[..|items| - 1])
    ensures items[|items| - 1].key !in Keys(items[..|items| - 1])
  {
    var init := items[..|items| - 1];
    forall i | 0 <= i < |init| ensures init[i].key != items[|items| - 1].key {
      assert init[i] == items[i];
    }
  }

  /** Assigning a new last key to the pairs before it gives back the whole list. */
  lemma AppendLast<V>(items: seq<Item<V>>)
    requires items != [] && items[|items| - 1].key !in Keys(items[..|items| - 1])
    ensures Put(items[..|items| - 1], items[|items| - 1].key, items[|items| - 1].value) == items
  {
    assert items[..|items| - 1] + [items[|items| - 1]] == items;
  }

  /** The keys of `dict(items)` are the keys of the pairs. */
  lemma {:induction false} FromItemsKeys<V>(items: seq<Item<V>>)
    ensures Keys(FromItems(items)) == Keys(items)
  {
    if items != [] {
      FromItemsKeys(items[..|items| - 1]);
      PutKeysLast(FromItems(items[..|items| - 1]), items);
    }
  }

  /** Assigning the last pair adds its key to those of the pairs before it. */
  lemma PutKeysLast<V>(d: Dict<V>, items: seq<Item<V>>)
    requires items != [] && Keys(d) == Keys(items[..|items| - 1])
    ensures Keys(Put(d, items[|items| - 1].key, items[|items| - 1].value)) == Keys(items)
  {
    var init, last := items[..|items| - 1], items[|items| - 1];
    KeysSnoc(init, last);
    assert items == init + [last];
  }

  lemma KeysSnoc<V>(d: Dict<V>, x: Item<V>)
    ensures Keys(d + [x]) == Keys(d) + {x.key}
  {
    var e := d + [x];
    forall y | y in Keys(e) ensures y in Keys(d) + {x.key} {
      var j :| 0 <= j < |e| && e[j].key == y;
      if j < |d| { assert d[j].key == y; }
    }
    forall y | y in Keys(d) ensures y in Keys(e) {
      var j :| 0 <= j < |d| && d[j].key == y;
      assert e[j].key == y;
    }
    assert e[|d|].key == x.key;
  }

  /** In `dict(items)` the last pair with a key gives its value. */
  lemma {:induction false} FromItemsGet<V>(items: seq<Item<V>>, i: nat)
    requires i < |items|
    requires forall j :: i < j < |items| ==> items[j].key != items[i].key
    ensures Get(FromItems(items), items[i].key) == Some(items[i].value)
  {
    if i < |items| - 1 {
      FromItemsGet(items[..|items| - 1], i);
    }
  }
}
