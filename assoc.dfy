// PHP arrays as ordered association lists: their entries in insertion order.
// `$a[$k] = $v`, `unset($a[$k])`, `$a + $b`, `array_key_exists` and
// `array_keys` over that representation.

module Assoc {
  import opened Wrappers

  predicate HasKey<K(==), V>(a: seq<(K, V)>, k: K)
  {
    exists i :: 0 <= i < |a| && a[i].0 == k
  }

  /** PHP arrays never hold a key twice. */
  predicate UniqueKeys<K(==), V>(a: seq<(K, V)>)
  {
    forall i, j :: 0 <= i < j < |a| ==> a[i].0 != a[j].0
  }

  /** array_keys. */
  function Keys<K, V>(a: seq<(K, V)>): (r: seq<K>)
    ensures |r| == |a|
    ensures forall i :: 0 <= i < |a| ==> r[i] == a[i].0
    decreases |a|
  {
    if a == [] then [] else [a[0].0] + Keys(a[1..])
  }

  /** array_values. */
  function Values<K, V>(a: seq<(K, V)>): (r: seq<V>)
    ensures |r| == |a|
    ensures forall i :: 0 <= i < |a| ==> r[i] == a[i].1
    decreases |a|
  {
    if a == [] then [] else [a[0].1] + Values(a[1..])
  }

  /** `$a[$k]` when the key exists (the first entry holding it). */
  function Get<K(==), V>(a: seq<(K, V)>, k: K): (r: Option<V>)
    ensures r.Some? <==> HasKey(a, k)
    ensures r.Some? ==> exists i :: 0 <= i < |a| && a[i] == (k, r.value)
    decreases |a|
  {
    if a == [] then None
    else if a[0].0 == k then Some(a[0].1)
    else Get(a[1..], k)
  }

  /** `$a[$k] = $v`: an existing key keeps its position, a new one goes last. */
  function Put<K(==), V>(a: seq<(K, V)>, k: K, v: V): (r: seq<(K, V)>)
    ensures HasKey(a, k) ==> |r| == |a|
    ensures !HasKey(a, k) ==> r == a + [(k, v)]
    decreases |a|
  {
    if a == [] then [(k, v)]
    else if a[0].0 == k then [(k, v)] + a[1..]
    else [a[0]] + Put(a[1..], k, v)
  }

  /** `unset($a[$k])`. */
  function Remove<K(==), V>(a: seq<(K, V)>, k: K): (r: seq<(K, V)>)
    ensures !HasKey(r, k)
    ensures forall i :: 0 <= i < |r| ==> r[i] in a
    ensures |r| <= |a|
    decreases |a|
  {
    if a == [] then []
    else if a[0].0 == k then Remove(a[1..], k)
    else [a[0]] + Remove(a[1..], k)
  }

  /** The entries of b whose key a does not hold. */
  function Missing<K(==), V>(b: seq<(K, V)>, a: seq<(K, V)>): (r: seq<(K, V)>)
    ensures forall i :: 0 <= i < |r| ==> r[i] in b && !HasKey(a, r[i].0)
    decreases |b|
  {
    if b == [] then []
    else if HasKey(a, b[0].0) then Missing(b[1..], a)
    else [b[0]] + Missing(b[1..], a)
  }

  /** The union `$a + $b`: the entries of a, then those of b under keys a lacks. */
  function Union<K(==), V>(a: seq<(K, V)>, b: seq<(K, V)>): seq<(K, V)>
  {
    a + Missing(b, a)
  }

  // ------------------------------------------------------------------ lemmas

  /** A unique-key array answers a lookup with the value stored under that key. */
  lemma GetUnique<K, V>(a: seq<(K, V)>, i: int)
    requires UniqueKeys(a) && 0 <= i < |a|
    ensures Get(a, a[i].0) == Some(a[i].1)
    decreases |a|
  {
    if i > 0 {
      GetUnique(a[1..], i - 1);
    }
  }

  lemma {:induction false} GetPut<K, V>(a: seq<(K, V)>, k: K, v: V, k': K)
    ensures Get(Put(a, k, v), k') == if k' == k then Some(v) else Get(a, k')
    decreases |a|
  {
    if a != [] && a[0].0 != k {
      GetPut(a[1..], k, v, k');
    }
  }

  lemma {:induction false} KeysPut<K, V>(a: seq<(K, V)>, k: K, v: V)
    ensures Keys(Put(a, k, v)) == if HasKey(a, k) then Keys(a) else Keys(a) + [k]
    decreases |a|
  {
    if a == [] {
      assert Put(a, k, v) == [(k, v)];
    } else {
      var t := a[1..];
      HasKeyCons(a, k);
      assert Keys(a) == [a[0].0] + Keys(t);
      if a[0].0 == k {
        assert Put(a, k, v) == [(k, v)] + t;
      } else {
        KeysPut(t, k, v);
        var r := Put(t, k, v);
        assert Put(a, k, v) == [a[0]] + r;
        assert Keys([a[0]] + r) == [a[0].0] + Keys(r);
      }
    }
  }

  lemma HasKeyCons<K, V>(a: seq<(K, V)>, k: K)
    requires a != []
    ensures HasKey(a, k) <==> a[0].0 == k || HasKey(a[1..], k)
  {
    if HasKey(a[1..], k) {
      var i :| 0 <= i < |a[1..]| && a[1..][i].0 == k;
      assert a[i + 1].0 == k;
    }
    if HasKey(a, k) && a[0].0 != k {
      var i :| 0 <= i < |a| && a[i].0 == k;
      assert a[1..][i - 1].0 == k;
    }
  }

  lemma {:induction false} PutUnique<K, V>(a: seq<(K, V)>, k: K, v: V)
    requires UniqueKeys(a)
    ensures UniqueKeys(Put(a, k, v))
    decreases |a|
  {
    KeysPut(a, k, v);
    var r := Put(a, k, v);
    var ka, kr := Keys(a), Keys(r);
    forall i, j | 0 <= i < j < |r| ensures r[i].0 != r[j].0 {
      assert kr[i] == r[i].0 && kr[j] == r[j].0;
      if !HasKey(a, k) && j == |a| {
        assert kr[i] == ka[i] == a[i].0;
      } else {
        assert kr[i] == ka[i] && kr[j] == ka[j];
      }
    }
  }

  lemma {:induction false} GetRemove<K, V>(a: seq<(K, V)>, k: K, k': K)
    ensures Get(Remove(a, k), k') == if k' == k then None else Get(a, k')
    decreases |a|
  {
    if a != [] {
      GetRemove(a[1..], k, k');
    }
  }

  lemma {:induction false} RemoveUnique<K, V>(a: seq<(K, V)>, k: K)
    requires UniqueKeys(a)
    ensures UniqueKeys(Remove(a, k))
    decreases |a|
  {
    if a != [] {
      RemoveUnique(a[1..], k);
      var rest := Remove(a[1..], k);
      if a[0].0 != k {
        forall j | 0 <= j < |rest| ensures rest[j].0 != a[0].0 {
          assert rest[j] in a[1..];
        }
      }
    }
  }

  lemma {:induction false} GetMissing<K, V>(b: seq<(K, V)>, a: seq<(K, V)>, k: K)
    requires !HasKey(a, k)
    ensures Get(Missing(b, a), k) == Get(b, k)
    decreases |b|
  {
    if b != [] {
      GetMissing(b[1..], a, k);
    }
  }

  lemma {:induction false} GetAppend<K, V>(x: seq<(K, V)>, y: seq<(K, V)>, k: K)
    ensures Get(x + y, k) == if HasKey(x, k) then Get(x, k) else Get(y, k)
    decreases |x|
  {
    if x == [] {
      assert x + y == y;
    } else if x[0].0 != k {
      assert (x + y)[1..] == x[1..] + y;
      GetAppend(x[1..], y, k);
      if HasKey(x, k) {
        var i :| 0 <= i < |x| && x[i].0 == k;
        assert x[1..][i - 1].0 == k;
      }
    }
  }

  /** Nothing is missing from an empty array, so `[] + $b` is `$b`. */
  lemma {:induction false} MissingEmpty<K, V>(b: seq<(K, V)>)
    ensures Missing(b, []) == b
    decreases |b|
  {
    if b != [] {
      MissingEmpty(b[1..]);
    }
  }

  lemma UnionEmpty<K, V>(b: seq<(K, V)>)
    ensures Union([], b) == b
  {
    MissingEmpty(b);
  }

  /** In `$a + $b` the left operand wins every shared key. */
  lemma GetUnion<K, V>(a: seq<(K, V)>, b: seq<(K, V)>, k: K)
    ensures Get(Union(a, b), k) == if HasKey(a, k) then Get(a, k) else Get(b, k)
  {
    GetAppend(a, Missing(b, a), k);
    if !HasKey(a, k) {
      GetMissing(b, a, k);
    }
  }

  /** `$a[$k] = $v` for each pair in turn. */
  function PutAll<K(==), V>(a: seq<(K, V)>, ps: seq<(K, V)>): (r: seq<(K, V)>)
    decreases |ps|
  {
    if ps == [] then a else Put(PutAll(a, ps[..|ps| - 1]), ps[|ps| - 1].0, ps[|ps| - 1].1)
  }

  /** The value last paired with k in ps. */
  function LastValue<K(==), V>(ps: seq<(K, V)>, k: K): (r: Option<V>)
    ensures r.None? <==> forall i :: 0 <= i < |ps| ==> ps[i].0 != k
    ensures r.Some? ==> exists i :: 0 <= i < |ps| && ps[i] == (k, r.value)
    decreases |ps|
  {
    if ps == [] then None
    else if ps[|ps| - 1].0 == k then Some(ps[|ps| - 1].1)
    else
      var r := LastValue(ps[..|ps| - 1], k);
      assert forall i :: 0 <= i < |ps| - 1 ==> ps[..|ps| - 1][i] == ps[i];
      r
  }

  /** After a run of assignments a key holds the value last assigned to it, or what it held before. */
  lemma {:induction false} GetPutAll<K, V>(a: seq<(K, V)>, ps: seq<(K, V)>, k: K)
    ensures Get(PutAll(a, ps), k) == match LastValue(ps, k) case Some(v) => Some(v) case None => Get(a, k)
    decreases |ps|
  {
    if ps != [] {
      var init := ps[..|ps| - 1];
      GetPutAll(a, init, k);
      GetPut(PutAll(a, init), ps[|ps| - 1].0, ps[|ps| - 1].1, k);
    }
  }

  lemma PutAllSnoc<K, V>(a: seq<(K, V)>, ps: seq<(K, V)>, i: nat)
    requires i < |ps|
    ensures PutAll(a, ps[..i + 1]) == Put(PutAll(a, ps[..i]), ps[i].0, ps[i].1)
  {
    assert ps[..i + 1][..i] == ps[..i];
  }
}
