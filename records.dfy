/** A JavaScript object used as a string-keyed record: its own entries in
    insertion order, as `Object.entries` lists them. Assigning to a key that
    is already present replaces its value and keeps its position. */
module Records {
  import opened Wrappers

  type Record<V> = seq<(string, V)>

  function Keys<V>(r: Record<V>): (keys: seq<string>)
    ensures |keys| == |r|
    ensures forall i :: 0 <= i < |r| ==> keys[i] == r[i].0
  {
    if r == [] then [] else [r[0].0] + Keys(r[1..])
  }

  /** No key occurs twice, as in any JavaScript object. */
  predicate UniqueKeys<V>(r: Record<V>)
  {
    forall i, j :: 0 <= i < j < |r| ==> r[i].0 != r[j].0
  }

  /** `r[key]`, None when the key is absent. */
  function Get<V>(r: Record<V>, key: string): (v: Option<V>)
    ensures v.Some? <==> key in Keys(r)
  {
    if r == [] then None else if r[0].0 == key then Some(r[0].1) else Get(r[1..], key)
  }

  /** `r[key] = value`. */
  function Put<V>(r: Record<V>, key: string, value: V): (r': Record<V>)
    ensures key in Keys(r) ==> Keys(r') == Keys(r)
    ensures key !in Keys(r) ==> Keys(r') == Keys(r) + [key]
  {
    if r == [] then [(key, value)]
    else if r[0].0 == key then [(key, value)] + r[1..]
    else [r[0]] + Put(r[1..], key, value)
  }

  /** After the assignment the key reads back the new value and every other
      key reads what it read before. */
  lemma {:induction false} GetPut<V>(r: Record<V>, key: string, value: V, other: string)
    ensures Get(Put(r, key, value), key) == Some(value)
    ensures other != key ==> Get(Put(r, key, value), other) == Get(r, other)
  {
    if r != [] && r[0].0 != key {
      GetPut(r[1..], key, value, other);
      assert Put(r, key, value)[1..] == Put(r[1..], key, value);
    }
  }

  /** Assignment never creates a duplicate key. */
  lemma PutKeepsKeysUnique<V>(r: Record<V>, key: string, value: V)
    requires UniqueKeys(r)
    ensures UniqueKeys(Put(r, key, value))
  {
    var r' := Put(r, key, value);
    var k := Keys(r');
    if key in Keys(r) {
      assert forall i, j :: 0 <= i < j < |r'| ==> r'[i].0 != r'[j].0 by {
        forall i, j | 0 <= i < j < |r'| ensures r'[i].0 != r'[j].0 {
          assert k[i] == Keys(r)[i] && k[j] == Keys(r)[j];
        }
      }
    } else {
      forall i, j | 0 <= i < j < |r'| ensures r'[i].0 != r'[j].0 {
        assert k[i] == (Keys(r) + [key])[i] && k[j] == (Keys(r) + [key])[j];
      }
    }
  }

  /** Assignment keeps every value satisfying a property the new value
      satisfies too. */
  lemma {:induction false} PutKeepsValuesSatisfying<V>(r: Record<V>, key: string, value: V, p: V -> bool)
    requires forall i :: 0 <= i < |r| ==> p(r[i].1)
    requires p(value)
    ensures forall i :: 0 <= i < |Put(r, key, value)| ==> p(Put(r, key, value)[i].1)
  {
    if r != [] && r[0].0 != key {
      PutKeepsValuesSatisfying(r[1..], key, value, p);
      assert Put(r, key, value) == [r[0]] + Put(r[1..], key, value);
    }
  }
}
