/** Python's dictionary: keys in the order of their first insertion, each with one value. */
module OrderedDict {
  import opened Options

  datatype Item<V> = Item(key: string, value: V)

  type Dict<V> = seq<Item<V>>

  function Keys<V>(d: Dict<V>): set<string> {
    if d == [] then {} else {d[0].key} + Keys(d[1..])
  }

  predicate NoRepeats<V>(d: Dict<V>) {
    d == [] || (d[0].key !in Keys(d[1..]) && NoRepeats(d[1..]))
  }

  function Value<V>(d: Dict<V>, key: string): Option<V> {
    if d == [] then None else if d[0].key == key then Some(d[0].value) else Value(d[1..], key)
  }

  /** Assignment to a key: a known key keeps its place. */
  function Put<V>(d: Dict<V>, key: string, value: V): Dict<V> {
    if d == [] then [Item(key, value)]
    else if d[0].key == key then [Item(key, value)] + d[1..]
    else [d[0]] + Put(d[1..], key, value)
  }

  function Pop<V>(d: Dict<V>, key: string): Dict<V> {
    if d == [] then []
    else if d[0].key == key then d[1..]
    else [d[0]] + Pop(d[1..], key)
  }

  lemma {:induction false} PutProperties<V>(d: Dict<V>, key: string, value: V)
    requires NoRepeats(d)
    ensures NoRepeats(Put(d, key, value)) && Keys(Put(d, key, value)) == Keys(d) + {key}
  {
    if d != [] && d[0].key != key {
      PutProperties(d[1..], key, value);
    }
  }

  lemma {:induction false} PopProperties<V>(d: Dict<V>, key: string)
    requires NoRepeats(d)
    ensures NoRepeats(Pop(d, key)) && Keys(Pop(d, key)) == Keys(d) - {key}
  {
    if d != [] && d[0].key != key {
      PopProperties(d[1..], key);
    }
  }

  lemma {:induction false} KeyIsIn<V>(d: Dict<V>, i: nat)
    requires i < |d|
    ensures d[i].key in Keys(d)
  {
    if i > 0 {
      KeyIsIn(d[1..], i - 1);
    }
  }

  /** A new item goes to the end. */
  lemma {:induction false} KeysAppend<V>(d: Dict<V>, item: Item<V>)
    ensures Keys(d + [item]) == Keys(d) + {item.key}
    ensures NoRepeats(d) && item.key !in Keys(d) ==> NoRepeats(d + [item])
  {
    if d == [] {
      assert d + [item] == [item];
    } else {
      assert (d + [item])[1..] == d[1..] + [item];
      KeysAppend(d[1..], item);
    }
  }
}
