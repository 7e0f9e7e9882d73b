// The sum of the values of a map.
module Sums {

  ghost function SumOf<K>(counts: map<K, nat>): nat {
    if counts == map[] then 0
    else
      var key :| key in counts;
      counts[key] + SumOf(counts - {key})
  }

  lemma {:induction false} SumOfPicks<K>(counts: map<K, nat>, key: K)
    requires key in counts
    ensures SumOf(counts) == counts[key] + SumOf(counts - {key})
    decreases |counts|
  {
    var k :| k in counts && SumOf(counts) == counts[k] + SumOf(counts - {k});
    if k != key {
      SumOfPicks(counts - {k}, key);
      SumOfPicks(counts - {key}, k);
      assert counts - {k} - {key} == counts - {key} - {k};
    }
  }

  lemma SumOfAdds<K>(counts: map<K, nat>, key: K, n: nat)
    requires key !in counts
    ensures SumOf(counts[key := n]) == SumOf(counts) + n
    ensures |counts[key := n]| == |counts| + 1
  {
    SumOfPicks(counts[key := n], key);
    assert counts[key := n] - {key} == counts;
    assert counts[key := n].Keys == counts.Keys + {key};
  }
}
