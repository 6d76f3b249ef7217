/** A full scan of a string-keyed index, stated independently of the order in which the index
    hands out its entries. `Gather` collects, as a multiset, what a per-entry function yields
    for every key of a key set; `SumOver` adds up a per-entry count. Both pick an arbitrary
    key first, and the "Pick" lemmas show that any key may be taken first, which is what lets
    a loop visiting the keys in any order be proved against them. */
module IndexScan {

  ghost function Gather<V, W>(m: map<string, V>, keys: set<string>, f: (string, V) -> multiset<W>): multiset<W>
    requires keys <= m.Keys
    decreases keys
  {
    if keys == {} then multiset{}
    else
      var k :| k in keys;
      f(k, m[k]) + Gather(m, keys - {k}, f)
  }

  ghost function SumOver<V>(m: map<string, V>, keys: set<string>, g: (string, V) -> nat): nat
    requires keys <= m.Keys
    decreases keys
  {
    if keys == {} then 0
    else
      var k :| k in keys;
      g(k, m[k]) + SumOver(m, keys - {k}, g)
  }

  /** Any key of the set may be the first one visited. */
  lemma {:induction false} GatherPick<V, W>(m: map<string, V>, keys: set<string>, f: (string, V) -> multiset<W>, k: string)
    requires keys <= m.Keys && k in keys
    ensures Gather(m, keys, f) == f(k, m[k]) + Gather(m, keys - {k}, f)
    decreases keys
  {
    var j :| j in keys && Gather(m, keys, f) == f(j, m[j]) + Gather(m, keys - {j}, f);
    if j != k {
      GatherPick(m, keys - {j}, f, k);
      GatherPick(m, keys - {k}, f, j);
      assert keys - {j} - {k} == keys - {k} - {j};
    }
  }

  lemma {:induction false} SumOverPick<V>(m: map<string, V>, keys: set<string>, g: (string, V) -> nat, k: string)
    requires keys <= m.Keys && k in keys
    ensures SumOver(m, keys, g) == g(k, m[k]) + SumOver(m, keys - {k}, g)
    decreases keys
  {
    var j :| j in keys && SumOver(m, keys, g) == g(j, m[j]) + SumOver(m, keys - {j}, g);
    if j != k {
      SumOverPick(m, keys - {j}, g, k);
      SumOverPick(m, keys - {k}, g, j);
      assert keys - {j} - {k} == keys - {k} - {j};
    }
  }

  /** A scan only depends on the values stored under the scanned keys. */
  lemma {:induction false} GatherAgree<V, W>(m1: map<string, V>, m2: map<string, V>, keys: set<string>, f: (string, V) -> multiset<W>)
    requires keys <= m1.Keys && keys <= m2.Keys
    requires forall k :: k in keys ==> m1[k] == m2[k]
    ensures Gather(m1, keys, f) == Gather(m2, keys, f)
    decreases keys
  {
    if keys != {} {
      var k :| k in keys;
      GatherPick(m1, keys, f, k);
      GatherPick(m2, keys, f, k);
      GatherAgree(m1, m2, keys - {k}, f);
    }
  }

  /** A whole-index scan splits into one entry and the scan of the index without it. */
  lemma GatherWithout<V, W>(m: map<string, V>, k: string, f: (string, V) -> multiset<W>)
    requires k in m
    ensures Gather(m, m.Keys, f) == f(k, m[k]) + Gather(m - {k}, (m - {k}).Keys, f)
  {
    GatherPick(m, m.Keys, f, k);
    GatherAgree(m, m - {k}, m.Keys - {k}, f);
    assert (m - {k}).Keys == m.Keys - {k};
  }

  /** Scanning after a put sees the new value once and every other entry as before. */
  lemma GatherAfterPut<V, W>(m: map<string, V>, k: string, v: V, f: (string, V) -> multiset<W>)
    ensures Gather(m[k := v], m[k := v].Keys, f) == f(k, v) + Gather(m - {k}, (m - {k}).Keys, f)
  {
    GatherWithout(m[k := v], k, f);
    assert m[k := v] - {k} == m - {k};
  }

  /** The size of a scan is the sum of the sizes of what each entry yields. */
  lemma {:induction false} GatherSize<V, W>(m: map<string, V>, keys: set<string>, f: (string, V) -> multiset<W>, g: (string, V) -> nat)
    requires keys <= m.Keys
    requires forall k :: k in keys ==> g(k, m[k]) == |f(k, m[k])|
    ensures |Gather(m, keys, f)| == SumOver(m, keys, g)
    decreases keys
  {
    if keys != {} {
      var k :| k in keys;
      GatherPick(m, keys, f, k);
      SumOverPick(m, keys, g, k);
      GatherSize(m, keys - {k}, f, g);
    }
  }

  /** How often a value occurs in a scan is the sum of how often each entry yields it. */
  lemma {:induction false} GatherCount<V, W>(m: map<string, V>, keys: set<string>, f: (string, V) -> multiset<W>, w: W, g: (string, V) -> nat)
    requires keys <= m.Keys
    requires forall k :: k in keys ==> g(k, m[k]) == f(k, m[k])[w]
    ensures Gather(m, keys, f)[w] == SumOver(m, keys, g)
    decreases keys
  {
    if keys != {} {
      var k :| k in keys;
      GatherPick(m, keys, f, k);
      SumOverPick(m, keys, g, k);
      GatherCount(m, keys - {k}, f, w, g);
    }
  }

  /** A value is in a scan exactly when some scanned entry yields it. */
  lemma {:induction false} GatherMember<V, W>(m: map<string, V>, keys: set<string>, f: (string, V) -> multiset<W>, w: W)
    requires keys <= m.Keys
    ensures w in Gather(m, keys, f) <==> exists k :: k in keys && w in f(k, m[k])
    decreases keys
  {
    if keys != {} {
      var k :| k in keys;
      GatherPick(m, keys, f, k);
      GatherMember(m, keys - {k}, f, w);
      if w !in f(k, m[k]) {
        assert (exists j :: j in keys && w in f(j, m[j])) ==> exists j :: j in keys - {k} && w in f(j, m[j]);
      }
    }
  }

  /** A 0/1 count summed over the keys is the number of keys that score 1. */
  lemma {:induction false} SumOverIndicator<V>(m: map<string, V>, keys: set<string>, g: (string, V) -> nat, hits: set<string>)
    requires keys <= m.Keys && hits <= keys
    requires forall k :: k in keys ==> g(k, m[k]) <= 1
    requires forall k :: k in keys ==> (g(k, m[k]) == 1 <==> k in hits)
    ensures SumOver(m, keys, g) == |hits|
    decreases keys
  {
    if keys != {} {
      var k :| k in keys;
      SumOverPick(m, keys, g, k);
      SumOverIndicator(m, keys - {k}, g, hits - {k});
    }
  }
}
