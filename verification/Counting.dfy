/** How many entries of a finite map satisfy a predicate, and how one update moves that number. */
module Counting {

  function Having<K, V>(m: map<K, V>, p: V -> bool): set<K> {
    set k | k in m && p(m[k])
  }

  function Count<K, V>(m: map<K, V>, p: V -> bool): nat {
    |Having(m, p)|
  }

  lemma CountUpdate<K, V>(m: map<K, V>, k: K, v: V, p: V -> bool)
    ensures Count(m[k := v], p)
         == Count(m, p) - (if k in m && p(m[k]) then 1 else 0) + (if p(v) then 1 else 0)
  {
    var before, after := Having(m, p), Having(m[k := v], p);
    if p(v) {
      assert after == (before - {k}) + {k};
    } else {
      assert after == before - {k};
    }
  }

  lemma CountAtMost<K, V>(m: map<K, V>, p: V -> bool, q: V -> bool)
    requires forall k :: k in m && p(m[k]) ==> q(m[k])
    ensures Count(m, p) <= Count(m, q)
    ensures (exists k :: k in m && q(m[k]) && !p(m[k])) ==> Count(m, p) < Count(m, q)
  {
    SubsetSize(Having(m, p), Having(m, q));
    if k :| k in m && q(m[k]) && !p(m[k]) {
      assert k in Having(m, q) - Having(m, p);
      SubsetSize(Having(m, p), Having(m, q) - {k});
    }
  }

  lemma SubsetSize<T>(a: set<T>, b: set<T>)
    requires a <= b
    ensures |a| <= |b|
  {
    assert b == a + (b - a);
  }
}
