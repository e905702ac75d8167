/**
  Kotlin's `mutableMapOf()` / `groupBy` result: a LinkedHashMap, whose
  iteration order is the order in which keys were first inserted.  It is
  modelled as a sequence of entries whose keys are pairwise distinct.
*/
module LinkedMaps {
  import opened Wrappers

  type LinkedMap<K, V> = seq<(K, V)>

  function Keys<K, V>(m: LinkedMap<K, V>): (ks: seq<K>)
    ensures |ks| == |m| && forall i :: 0 <= i < |m| ==> ks[i] == m[i].0
  {
    seq(|m|, i requires 0 <= i < |m| => m[i].0)
  }

  function Values<K, V>(m: LinkedMap<K, V>): (vs: seq<V>)
    ensures |vs| == |m| && forall i :: 0 <= i < |m| ==> vs[i] == m[i].1
  {
    seq(|m|, i requires 0 <= i < |m| => m[i].1)
  }

  /** No key occurs twice. */
  predicate Valid<K(==), V>(m: LinkedMap<K, V>) {
    forall i, j :: 0 <= i < j < |m| ==> m[i].0 != m[j].0
  }

  /** The position of the entry for `k`: the first one, which in a valid map is the only one. */
  function IndexOf<K(==), V>(m: LinkedMap<K, V>, k: K): (r: Option<nat>)
    ensures r.Some? ==> r.value < |m| && m[r.value].0 == k
    ensures r.Some? ==> forall j :: 0 <= j < r.value ==> m[j].0 != k
    ensures r.None? <==> k !in Keys(m)
  {
    if m == [] then None
    else match IndexOf(m[..|m| - 1], k)
      case Some(i) => Some(i)
      case None => if m[|m| - 1].0 == k then Some(|m| - 1) else None
  }

  /** `m[k]` */
  function Get<K(==), V>(m: LinkedMap<K, V>, k: K): (r: Option<V>)
    ensures r.Some? <==> k in Keys(m)
  {
    match IndexOf(m, k)
    case None => None
    case Some(i) => Some(m[i].1)
  }

  /** `m[k] = v`: replaces the value in place when `k` is present, appends otherwise. */
  function Put<K(==), V>(m: LinkedMap<K, V>, k: K, v: V): LinkedMap<K, V> {
    match IndexOf(m, k)
    case Some(i) => m[i := (k, v)]
    case None => m + [(k, v)]
  }

  /** `m.remove(k)` */
  function Remove<K(==), V>(m: LinkedMap<K, V>, k: K): LinkedMap<K, V> {
    if m == [] then []
    else
      var last := m[|m| - 1];
      Remove(m[..|m| - 1], k) + (if last.0 == k then [] else [last])
  }

  /** `m.getOrPut(k) { mutableListOf() }.addAll(xs)` */
  function Append<K(==), V>(m: LinkedMap<K, seq<V>>, k: K, xs: seq<V>): LinkedMap<K, seq<V>> {
    Put(m, k, Get(m, k).GetOr([]) + xs)
  }

  /** `Append` applied to each pair of `kvs` in turn. */
  function AppendAll<K(==), V>(m: LinkedMap<K, seq<V>>, kvs: seq<(K, seq<V>)>): LinkedMap<K, seq<V>> {
    if kvs == [] then m
    else
      var last := kvs[|kvs| - 1];
      Append(AppendAll(m, kvs[..|kvs| - 1]), last.0, last.1)
  }

  /** The concatenation, in order, of the lists that `kvs` pairs with `k`. */
  function Collect<K(==), V>(kvs: seq<(K, seq<V>)>, k: K): seq<V> {
    if kvs == [] then []
    else
      var last := kvs[|kvs| - 1];
      Collect(kvs[..|kvs| - 1], k) + (if last.0 == k then last.1 else [])
  }

  /** `m.forEach { (k, vs) -> vs.forEach { v -> visit(k, v) } }`: the visits, in order. */
  function Pairs<K, V>(m: LinkedMap<K, seq<V>>): seq<(K, V)> {
    if m == [] then []
    else
      var last := m[|m| - 1];
      Pairs(m[..|m| - 1]) + Lift(last.0, last.1)
  }

  /** Each value of `vs` paired with `k`. */
  function Lift<K, V>(k: K, vs: seq<V>): seq<(K, V)> {
    if vs == [] then [] else Lift(k, vs[..|vs| - 1]) + [(k, vs[|vs| - 1])]
  }

  /** The values paired with `k`, in order. */
  function Project<K(==), V>(ps: seq<(K, V)>, k: K): seq<V> {
    if ps == [] then []
    else
      var last := ps[|ps| - 1];
      Project(ps[..|ps| - 1], k) + (if last.0 == k then [last.1] else [])
  }

  lemma IndexOfValid<K, V>(m: LinkedMap<K, V>, i: nat)
    requires Valid(m) && i < |m|
    ensures IndexOf(m, m[i].0) == Some(i)
  {
  }

  lemma IndexOfSnoc<K, V>(m: LinkedMap<K, V>, e: (K, V), k: K)
    ensures IndexOf(m, k).Some? ==> IndexOf(m + [e], k) == IndexOf(m, k)
    ensures IndexOf(m, k).None? && e.0 == k ==> IndexOf(m + [e], k) == Some(|m|)
    ensures IndexOf(m, k).None? && e.0 != k ==> IndexOf(m + [e], k) == None
  {
    assert (m + [e])[..|m|] == m;
  }

  /** Putting a key leaves the map valid, binds the key, and changes no other binding;
      a new key goes last, an existing one keeps its place. */
  lemma PutSpec<K, V>(m: LinkedMap<K, V>, k: K, v: V)
    requires Valid(m)
    ensures Valid(Put(m, k, v))
    ensures Get(Put(m, k, v), k) == Some(v)
    ensures forall j :: j != k ==> Get(Put(m, k, v), j) == Get(m, j)
    ensures Keys(Put(m, k, v)) == if k in Keys(m) then Keys(m) else Keys(m) + [k]
  {
    var m' := Put(m, k, v);
    assert |m'| > 0 && forall i :: 0 <= i < |m| ==> m'[i].0 == m[i].0 && (m[i].0 != k ==> m'[i] == m[i]);
    match IndexOf(m, k)
    case Some(i) =>
      assert m'[i] == (k, v);
      IndexOfValid(m', i);
    case None =>
      assert m'[|m|] == (k, v);
      IndexOfValid(m', |m|);
    forall j | j != k
      ensures Get(m', j) == Get(m, j)
    {
      match IndexOf(m, j)
      case None =>
      case Some(i) => IndexOfValid(m', i);
    }
  }

  /** Writing back the value a key already has changes nothing. */
  lemma PutSame<K, V>(m: LinkedMap<K, V>, k: K)
    requires k in Keys(m)
    ensures Put(m, k, Get(m, k).value) == m
  {
  }

  lemma GetSnoc<K, V>(m: LinkedMap<K, V>, e: (K, V), k: K)
    ensures Get(m + [e], k) == if k in Keys(m) then Get(m, k) else if e.0 == k then Some(e.1) else None
  {
    IndexOfSnoc(m, e, k);
    match IndexOf(m, k)
    case Some(i) => assert (m + [e])[i] == m[i];
    case None =>
  }

  lemma ValidSnoc<K, V>(m: LinkedMap<K, V>, e: (K, V))
    requires Valid(m) && e.0 !in Keys(m)
    ensures Valid(m + [e])
  {
  }

  /** What `RemoveSpec` states about `Remove(m, k)`. */
  ghost predicate RemoveFacts<K(!new), V>(m: LinkedMap<K, V>, k: K) {
    && Valid(Remove(m, k))
    && Get(Remove(m, k), k) == None
    && (forall j :: j != k ==> Get(Remove(m, k), j) == Get(m, j))
    && (k !in Keys(m) ==> Remove(m, k) == m)
    && |Remove(m, k)| == if k in Keys(m) then |m| - 1 else |m|
  }

  /** The step of `RemoveSpec` when the last entry is the removed key's. */
  lemma RemoveLastHit<K(!new), V>(m: LinkedMap<K, V>, k: K)
    requires Valid(m) && m != [] && m[|m| - 1].0 == k
    requires RemoveFacts(m[..|m| - 1], k)
    ensures RemoveFacts(m, k)
  {
    var init, last := m[..|m| - 1], m[|m| - 1];
    var r := Remove(init, k);
    assert m == init + [last];
    assert Remove(m, k) == r by {
      assert Remove(m, k) == r + [];
    }
    assert k !in Keys(init) by {
      forall i | 0 <= i < |init|
        ensures Keys(init)[i] != k
      {
        assert init[i] == m[i];
      }
    }
    assert k in Keys(m) by {
      assert Keys(m)[|m| - 1] == k;
    }
    forall j | j != k
      ensures Get(m, j) == Get(init, j)
    {
      GetSnoc(init, last, j);
    }
  }

  /** The step of `RemoveSpec` when the last entry is another key's. */
  lemma RemoveLastMiss<K(!new), V>(m: LinkedMap<K, V>, k: K)
    requires Valid(m) && m != [] && m[|m| - 1].0 != k
    requires RemoveFacts(m[..|m| - 1], k)
    ensures RemoveFacts(m, k)
  {
    var init, last := m[..|m| - 1], m[|m| - 1];
    var r := Remove(init, k);
    assert m == init + [last];
    assert Valid(init);
    assert last.0 !in Keys(init);
    assert Remove(m, k) == r + [last];
    assert Keys(m) == Keys(init) + [last.0];
    assert last.0 !in Keys(r) by {
      assert Get(r, last.0) == Get(init, last.0);
    }
    ValidSnoc(r, last);
    forall j
      ensures Get(m, j) == if j in Keys(init) then Get(init, j) else if last.0 == j then Some(last.1) else None
      ensures Get(r + [last], j) == if j in Keys(r) then Get(r, j) else if last.0 == j then Some(last.1) else None
    {
      GetSnoc(init, last, j);
      GetSnoc(r, last, j);
    }
  }

  /** Removing a key leaves the map valid, unbinds the key, and changes no other binding;
      removing an absent key changes nothing. */
  lemma {:induction false} RemoveSpec<K(!new), V>(m: LinkedMap<K, V>, k: K)
    requires Valid(m)
    ensures Valid(Remove(m, k))
    ensures Get(Remove(m, k), k) == None
    ensures forall j :: j != k ==> Get(Remove(m, k), j) == Get(m, j)
    ensures k !in Keys(m) ==> Remove(m, k) == m
    ensures |Remove(m, k)| == if k in Keys(m) then |m| - 1 else |m|
  {
    if m != [] {
      var init := m[..|m| - 1];
      assert Valid(init);
      RemoveSpec(init, k);
      if m[|m| - 1].0 == k {
        RemoveLastHit(m, k);
      } else {
        RemoveLastMiss(m, k);
      }
    }
  }

  lemma {:induction false} CollectAbsent<K, V>(kvs: seq<(K, seq<V>)>, k: K)
    requires k !in Keys(kvs)
    ensures Collect(kvs, k) == []
  {
    if kvs != [] {
      assert Keys(kvs[..|kvs| - 1]) == Keys(kvs)[..|kvs| - 1];
      CollectAbsent(kvs[..|kvs| - 1], k);
    }
  }

  lemma {:induction false} AppendAllValid<K, V>(m: LinkedMap<K, seq<V>>, kvs: seq<(K, seq<V>)>)
    requires Valid(m)
    ensures Valid(AppendAll(m, kvs))
  {
    if kvs != [] {
      var init, last := kvs[..|kvs| - 1], kvs[|kvs| - 1];
      AppendAllValid(m, init);
      var a := AppendAll(m, init);
      PutSpec(a, last.0, Get(a, last.0).GetOr([]) + last.1);
    }
  }

  lemma AppendAt<K, V>(m: LinkedMap<K, seq<V>>, k0: K, xs: seq<V>, k: K)
    requires Valid(m)
    ensures Get(Append(m, k0, xs), k) == if k == k0 then Some(Get(m, k).GetOr([]) + xs) else Get(m, k)
  {
    PutSpec(m, k0, Get(m, k0).GetOr([]) + xs);
  }

  /** The binding of `k` after `AppendAll(m, kvs)`, as `AppendAllAt` states it. */
  ghost predicate AppendedAt<K, V>(m: LinkedMap<K, seq<V>>, kvs: seq<(K, seq<V>)>, k: K) {
    Get(AppendAll(m, kvs), k) ==
      if k in Keys(m) || k in Keys(kvs) then Some(Get(m, k).GetOr([]) + Collect(kvs, k)) else None
  }

  lemma KeysSnoc<K, V>(kvs: seq<(K, V)>)
    requires kvs != []
    ensures Keys(kvs) == Keys(kvs[..|kvs| - 1]) + [kvs[|kvs| - 1].0]
  {
  }

  /** The step of `AppendAllAt` for the key of the last pair. */
  lemma AppendAllAtLast<K, V>(m: LinkedMap<K, seq<V>>, kvs: seq<(K, seq<V>)>)
    requires Valid(m) && kvs != []
    requires AppendedAt(m, kvs[..|kvs| - 1], kvs[|kvs| - 1].0)
    ensures AppendedAt(m, kvs, kvs[|kvs| - 1].0)
  {
    var init, last := kvs[..|kvs| - 1], kvs[|kvs| - 1];
    var k := last.0;
    var a := AppendAll(m, init);
    KeysSnoc(kvs);
    assert Get(a, k).GetOr([]) == Get(m, k).GetOr([]) + Collect(init, k) by {
      if k !in Keys(m) && k !in Keys(init) {
        CollectAbsent(init, k);
      }
    }
    AppendAllValid(m, init);
    AppendAt(a, k, last.1, k);
    assert Get(AppendAll(m, kvs), k) == Some(Get(a, k).GetOr([]) + last.1);
    assert Collect(kvs, k) == Collect(init, k) + last.1;
    assert Get(m, k).GetOr([]) + Collect(kvs, k) == Get(m, k).GetOr([]) + Collect(init, k) + last.1;
    assert k in Keys(kvs);
  }

  /** The step of `AppendAllAt` for any other key. */
  lemma AppendAllAtOther<K, V>(m: LinkedMap<K, seq<V>>, kvs: seq<(K, seq<V>)>, k: K)
    requires Valid(m) && kvs != [] && k != kvs[|kvs| - 1].0
    requires AppendedAt(m, kvs[..|kvs| - 1], k)
    ensures AppendedAt(m, kvs, k)
  {
    var init, last := kvs[..|kvs| - 1], kvs[|kvs| - 1];
    KeysSnoc(kvs);
    AppendAllValid(m, init);
    AppendAt(AppendAll(m, init), last.0, last.1, k);
    assert Get(AppendAll(m, kvs), k) == Get(AppendAll(m, init), k);
    assert Collect(kvs, k) == Collect(init, k) by {
      assert Collect(init, k) + [] == Collect(init, k);
    }
    assert k in Keys(kvs) <==> k in Keys(init);
  }

  lemma {:induction false} AppendAllAt<K, V>(m: LinkedMap<K, seq<V>>, kvs: seq<(K, seq<V>)>, k: K)
    requires Valid(m)
    ensures Get(AppendAll(m, kvs), k) ==
      if k in Keys(m) || k in Keys(kvs) then Some(Get(m, k).GetOr([]) + Collect(kvs, k)) else None
  {
    if kvs == [] {
      assert Get(m, k).GetOr([]) + Collect(kvs, k) == Get(m, k).GetOr([]);
    } else {
      AppendAllAt(m, kvs[..|kvs| - 1], k);
      if k == kvs[|kvs| - 1].0 {
        AppendAllAtLast(m, kvs);
      } else {
        AppendAllAtOther(m, kvs, k);
      }
    }
  }

  /** Appending lists key by key: the result is valid, a key is bound exactly when it was bound
      before or occurs in `kvs`, and then to its old list followed by its lists from `kvs`, in order. */
  lemma AppendAllSpec<K, V>(m: LinkedMap<K, seq<V>>, kvs: seq<(K, seq<V>)>)
    requires Valid(m)
    ensures Valid(AppendAll(m, kvs))
    ensures forall k :: Get(AppendAll(m, kvs), k) ==
                       if k in Keys(m) || k in Keys(kvs) then Some(Get(m, k).GetOr([]) + Collect(kvs, k)) else None
  {
    AppendAllValid(m, kvs);
    forall k
      ensures Get(AppendAll(m, kvs), k) ==
        if k in Keys(m) || k in Keys(kvs) then Some(Get(m, k).GetOr([]) + Collect(kvs, k)) else None
    {
      AppendAllAt(m, kvs, k);
    }
  }

  /** Projection distributes over concatenation. */
  lemma {:induction false} ProjectConcat<K, V>(ps: seq<(K, V)>, qs: seq<(K, V)>, k: K)
    ensures Project(ps + qs, k) == Project(ps, k) + Project(qs, k)
  {
    if qs != [] {
      var init, last := qs[..|qs| - 1], qs[|qs| - 1];
      var tail := if last.0 == k then [last.1] else [];
      assert (ps + qs)[..|ps + qs| - 1] == ps + init;
      assert (ps + qs)[|ps + qs| - 1] == last;
      assert Project(ps + qs, k) == Project(ps + init, k) + tail;
      ProjectConcat(ps, init, k);
      assert Project(qs, k) == Project(init, k) + tail;
    } else {
      assert ps + qs == ps;
    }
  }

  lemma {:induction false} ProjectLift<K, V>(k': K, vs: seq<V>, k: K)
    ensures Project(Lift(k', vs), k) == if k' == k then vs else []
  {
    if vs != [] {
      var init := vs[..|vs| - 1];
      var ps := Lift(k', vs);
      assert ps[..|ps| - 1] == Lift(k', init);
      ProjectLift(k', init, k);
      if k' == k {
        assert vs == init + [vs[|vs| - 1]];
      }
    }
  }

  /** Visiting every (key, value) pair visits, for each key, exactly its list, in list order,
      duplicates included; keys absent from the map are never visited. */
  lemma {:induction false} PairsProject<K, V>(m: LinkedMap<K, seq<V>>, k: K)
    requires Valid(m)
    ensures Project(Pairs(m), k) == Get(m, k).GetOr([])
  {
    if m != [] {
      var init, last := m[..|m| - 1], m[|m| - 1];
      assert m == init + [last];
      PairsProject(init, k);
      var lifted := Lift(last.0, last.1);
      ProjectConcat(Pairs(init), lifted, k);
      ProjectLift(last.0, last.1, k);
      GetSnoc(init, last, k);
      assert Pairs(m) == Pairs(init) + lifted;
      if last.0 == k {
        assert forall j :: 0 <= j < |init| ==> (init[j].0 == m[j].0 && m[j].0 != k);
        assert Project(Pairs(m), k) == [] + last.1;
      } else {
        assert Get(m, k).GetOr([]) == Get(init, k).GetOr([]);
        assert Project(Pairs(m), k) == Project(Pairs(init), k) + [];
      }
    }
  }

  /** Collecting distributes over concatenation. */
  lemma {:induction false} CollectConcat<K, V>(a: seq<(K, seq<V>)>, b: seq<(K, seq<V>)>, k: K)
    ensures Collect(a + b, k) == Collect(a, k) + Collect(b, k)
  {
    if b != [] {
      var init, last := b[..|b| - 1], b[|b| - 1];
      var tail := if last.0 == k then last.1 else [];
      assert (a + b)[..|a + b| - 1] == a + init;
      assert (a + b)[|a + b| - 1] == last;
      CollectConcat(a, init, k);
      assert Collect(a + b, k) == Collect(a, k) + Collect(init, k) + tail;
    } else {
      assert a + b == a;
    }
  }

  /** When no list in `kvs` is empty, `k` occurs as a key exactly when something is collected for it. */
  lemma {:induction false} CollectKeys<K, V>(kvs: seq<(K, seq<V>)>, k: K)
    requires forall j :: 0 <= j < |kvs| ==> kvs[j].1 != []
    ensures k in Keys(kvs) <==> Collect(kvs, k) != []
  {
    if kvs != [] {
      var init, last := kvs[..|kvs| - 1], kvs[|kvs| - 1];
      assert Keys(kvs) == Keys(init) + [last.0];
      CollectKeys(init, k);
    }
  }
}
