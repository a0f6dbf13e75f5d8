/** Traffic in two directions, and sums of it over tables. */
module OctetSums {

  datatype Dir = In | Out

  datatype Octets = Octets(received: nat, sent: nat) {
    function Of(d: Dir): nat {
      if d.In? then received else sent
    }

    function Plus(other: Octets): Octets {
      Octets(received + other.received, sent + other.sent)
    }
  }

  const ZERO := Octets(0, 0)

  ghost function Sum<K>(m: map<K, Octets>, d: Dir): nat {
    if m == map[] then 0
    else
      var k :| k in m;
      m[k].Of(d) + Sum(m - {k}, d)
  }

  /** The key summed first does not matter. */
  lemma {:induction false} SumPick<K>(m: map<K, Octets>, k: K, d: Dir)
    requires k in m
    ensures Sum(m, d) == m[k].Of(d) + Sum(m - {k}, d)
  {
    var j :| j in m && Sum(m, d) == m[j].Of(d) + Sum(m - {j}, d);
    if j != k {
      SumPick(m - {j}, k, d);
      SumPick(m - {k}, j, d);
      assert m - {j} - {k} == m - {k} - {j};
    }
  }

  lemma SumPut<K>(m: map<K, Octets>, k: K, v: Octets, d: Dir)
    ensures Sum(m[k := v], d) == Sum(m, d) + v.Of(d) - (if k in m then m[k].Of(d) else 0)
  {
    SumPick(m[k := v], k, d);
    if k in m {
      SumPick(m, k, d);
      assert m[k := v] - {k} == m - {k};
    } else {
      assert m[k := v] - {k} == m;
    }
  }

  /** A table splits into the rows with keys in `keys` and the others. */
  lemma {:induction false} SumSplit<K>(m: map<K, Octets>, keys: set<K>, d: Dir)
    ensures Sum(m, d) == Sum(map k | k in m && k in keys :: m[k], d) + Sum(m - keys, d)
    decreases |m|
  {
    var inside := map k | k in m && k in keys :: m[k];
    if m.Keys * keys == {} {
      assert forall k | k in m :: k in keys ==> k in m.Keys * keys;
      assert inside == map[];
      assert m - keys == m;
    } else {
      var k :| k in m.Keys * keys;
      SumPick(m, k, d);
      SumPick(inside, k, d);
      SumSplit(m - {k}, keys, d);
      assert inside - {k} == map j | j in m - {k} && j in keys :: (m - {k})[j];
      assert m - {k} - keys == m - keys;
    }
  }
}
