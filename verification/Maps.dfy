/** Maps filled by a loop that inserts pairs, as functions of the set of pairs inserted. */
module Maps {

  /** No key has two values, so the order of insertion does not matter. */
  ghost predicate Functional<K(!new), V(!new)>(pairs: set<(K, V)>) {
    forall p, q :: p in pairs && q in pairs && p.0 == q.0 ==> p.1 == q.1
  }

  ghost function KeySet<K(!new), V(!new)>(pairs: set<(K, V)>): set<K> {
    set p | p in pairs :: p.0
  }

  ghost function ValueAt<K(!new), V(!new)>(pairs: set<(K, V)>, k: K): V
    requires k in KeySet(pairs)
  {
    var p :| p in pairs && p.0 == k;
    p.1
  }

  ghost function MapOf<K(!new), V(!new)>(pairs: set<(K, V)>): (m: map<K, V>)
    ensures m.Keys == KeySet(pairs)
  {
    map k | k in KeySet(pairs) :: ValueAt(pairs, k)
  }

  lemma MapHolds<K(!new), V(!new)>(pairs: set<(K, V)>, p: (K, V))
    requires Functional(pairs) && p in pairs
    ensures p.0 in MapOf(pairs) && MapOf(pairs)[p.0] == p.1
  {
  }

  lemma MapNext<K(!new), V(!new)>(pairs: set<(K, V)>, p: (K, V))
    requires Functional(pairs + {p})
    ensures MapOf(pairs + {p}) == MapOf(pairs)[p.0 := p.1]
    ensures p.0 in MapOf(pairs) ==> MapOf(pairs)[p.0] == p.1 && MapOf(pairs + {p}) == MapOf(pairs)
  {
    var before, after := MapOf(pairs), MapOf(pairs + {p});
    MapHolds(pairs + {p}, p);
    forall k | k in before
      ensures k in after && after[k] == before[k]
    {
      var q :| q in pairs && q.0 == k && q.1 == before[k];
      MapHolds(pairs + {p}, q);
    }
    assert KeySet(pairs + {p}) == KeySet(pairs) + {p.0};
  }
}
