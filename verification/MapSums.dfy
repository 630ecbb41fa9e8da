/** The sum of the values of a map, in whatever order they come. */
module MapSums {

  ghost function Total<K>(m: map<K, nat>): nat
    decreases |m|
  {
    if |m| == 0 then 0
    else
      var key :| key in m;
      m[key] + Total(m - {key})
  }

  lemma TotalOfNothing<K>()
    ensures Total<K>(map[]) == 0
  {
  }

  lemma PickOne<K>(m: map<K, nat>) returns (key: K)
    requires |m| != 0
    ensures key in m && Total(m) == m[key] + Total(m - {key})
  {
    key :| key in m && Total(m) == m[key] + Total(m - {key});
  }

  lemma {:induction false} TotalWithout<K>(m: map<K, nat>, key: K)
    requires key in m
    ensures Total(m) == m[key] + Total(m - {key})
    decreases |m|
  {
    hide Total;
    var picked := PickOne(m);
    if picked != key {
      TotalWithout(m - {picked}, key);
      TotalWithout(m - {key}, picked);
      assert m - {picked} - {key} == m - {key} - {picked};
    }
  }

  lemma TotalAfterUpdate<K>(m: map<K, nat>, key: K, value: nat)
    ensures Total(m[key := value]) == Total(m) + value - if key in m then m[key] else 0
  {
    hide Total;
    var after := m[key := value];
    TotalWithout(after, key);
    if key in m {
      TotalWithout(m, key);
      assert after - {key} == m - {key};
    } else {
      assert after - {key} == m;
    }
  }
}
