/** `GROUP BY`: one entry per key, its value combined from the values put under the key. */
module Grouping {
  import opened Prelude

  datatype Group<K, V> = Group(key: K, value: V)

  function Put<K(==), V>(groups: seq<Group<K, V>>, k: K, v: V, combine: (V, V) -> V): seq<Group<K, V>> {
    if groups == [] then [Group(k, v)]
    else if groups[0].key == k then [Group(k, combine(groups[0].value, v))] + groups[1..]
    else [groups[0]] + Put(groups[1..], k, v, combine)
  }

  function Under<K(==), V>(groups: seq<Group<K, V>>, k: K): Option<V> {
    if groups == [] then None
    else if groups[0].key == k then Some(groups[0].value)
    else Under(groups[1..], k)
  }

  ghost predicate OneEach<K, V>(groups: seq<Group<K, V>>) {
    forall i, j :: 0 <= i < j < |groups| ==> groups[i].key != groups[j].key
  }

  lemma {:induction false} UnderPut<K, V>(groups: seq<Group<K, V>>, k: K, v: V, combine: (V, V) -> V, k2: K)
    ensures
      Under(Put(groups, k, v, combine), k2) ==
        if k2 != k then Under(groups, k2)
        else Some(if Under(groups, k).Some? then combine(Under(groups, k).value, v) else v)
  {
    if groups != [] {
      UnderPut(groups[1..], k, v, combine, k2);
    }
  }

  lemma {:induction false} UnderExact<K, V>(groups: seq<Group<K, V>>, g: Group<K, V>)
    requires OneEach(groups)
    ensures g in groups <==> Under(groups, g.key) == Some(g.value)
  {
    if groups != [] {
      UnderExact(groups[1..], g);
      assert groups == [groups[0]] + groups[1..];
      if groups[0].key == g.key && g in groups[1..] {
        assert false;
      }
    }
  }

  lemma {:induction false} UnderHas<K, V>(groups: seq<Group<K, V>>, k: K)
    ensures Under(groups, k).None? <==> forall i :: 0 <= i < |groups| ==> groups[i].key != k
  {
    if groups != [] {
      UnderHas(groups[1..], k);
      assert forall i :: 0 < i < |groups| ==> groups[i] == groups[1..][i - 1];
    }
  }

  lemma {:induction false} PutOneEach<K, V>(groups: seq<Group<K, V>>, k: K, v: V, combine: (V, V) -> V)
    requires OneEach(groups)
    ensures OneEach(Put(groups, k, v, combine))
  {
    if groups != [] && groups[0].key != k {
      var rest := Put(groups[1..], k, v, combine);
      PutOneEach(groups[1..], k, v, combine);
      UnderPut(groups[1..], k, v, combine, groups[0].key);
      UnderHas(groups[1..], groups[0].key);
      UnderHas(rest, groups[0].key);
    }
  }
}
