/** Python's OrderedDict as a sequence of pairs in insertion order. */
module OrderedMap {
  import opened Digests

  predicate Distinct<K(==), V>(d: seq<(K, V)>) {
    forall i, j | 0 <= i < j < |d| :: d[i].0 != d[j].0
  }

  function Get<K(==), V>(d: seq<(K, V)>, k: K): Option<V> {
    if d == [] then None else if d[0].0 == k then Some(d[0].1) else Get(d[1..], k)
  }

  /** `d[k] = v`: an existing key keeps its place. */
  function Put<K(==), V>(d: seq<(K, V)>, k: K, v: V): seq<(K, V)> {
    if d == [] then [(k, v)]
    else if d[0].0 == k then [(k, v)] + d[1..]
    else [d[0]] + Put(d[1..], k, v)
  }

  /** `d.pop(k, None)`. */
  function Remove<K(==), V>(d: seq<(K, V)>, k: K): seq<(K, V)> {
    if d == [] then [] else if d[0].0 == k then d[1..] else [d[0]] + Remove(d[1..], k)
  }

  /** `d.move_to_end(k)`. */
  function MoveToEnd<K(==), V>(d: seq<(K, V)>, k: K): seq<(K, V)> {
    var v := Get(d, k);
    if v.None? then d else Remove(d, k) + [(k, v.value)]
  }

  lemma {:induction false} GetMeansMember<K, V>(d: seq<(K, V)>, k: K)
    requires Distinct(d)
    ensures Get(d, k).Some? <==> exists i :: 0 <= i < |d| && d[i].0 == k
    ensures forall i | 0 <= i < |d| && d[i].0 == k :: Get(d, k) == Some(d[i].1)
  {
    if d != [] && d[0].0 != k {
      GetMeansMember(d[1..], k);
      forall i | 0 <= i < |d| && d[i].0 == k
        ensures Get(d, k) == Some(d[i].1)
      {
        assert d[1..][i - 1] == d[i];
      }
    }
  }

  lemma {:induction false} PutProperties<K, V>(d: seq<(K, V)>, k: K, v: V)
    requires Distinct(d)
    ensures Distinct(Put(d, k, v))
    ensures |Put(d, k, v)| == if Get(d, k).Some? then |d| else |d| + 1
    ensures forall x :: Get(Put(d, k, v), x) == if x == k then Some(v) else Get(d, x)
    ensures forall p | p in Put(d, k, v) :: p in d || p == (k, v)
  {
    if d != [] && d[0].0 != k {
      PutProperties(d[1..], k, v);
      var rest := Put(d[1..], k, v);
      forall j | 0 <= j < |rest|
        ensures rest[j].0 != d[0].0
      {
        assert rest[j] in rest;
      }
    }
  }

  lemma {:induction false} RemoveProperties<K, V>(d: seq<(K, V)>, k: K)
    requires Distinct(d)
    ensures Distinct(Remove(d, k))
    ensures |Remove(d, k)| == if Get(d, k).Some? then |d| - 1 else |d|
    ensures forall x :: Get(Remove(d, k), x) == if x == k then None else Get(d, x)
    ensures forall p | p in Remove(d, k) :: p in d && p.0 != k
  {
    if d != [] {
      if d[0].0 == k {
        GetMeansMember(d[1..], k);
      } else {
        RemoveProperties(d[1..], k);
        var rest := Remove(d[1..], k);
        forall j | 0 <= j < |rest|
          ensures rest[j].0 != d[0].0
        {
          assert rest[j] in rest;
        }
      }
    }
  }

  lemma {:induction false} GetOfConcat<K, V>(a: seq<(K, V)>, b: seq<(K, V)>, k: K)
    ensures Get(a + b, k) == if Get(a, k).Some? then Get(a, k) else Get(b, k)
  {
    if a == [] {
      assert a + b == b;
    } else {
      assert (a + b)[1..] == a[1..] + b;
      GetOfConcat(a[1..], b, k);
    }
  }

  lemma MoveToEndProperties<K, V>(d: seq<(K, V)>, k: K)
    requires Distinct(d)
    ensures Distinct(MoveToEnd(d, k)) && |MoveToEnd(d, k)| == |d|
    ensures forall x :: Get(MoveToEnd(d, k), x) == Get(d, x)
  {
    RemoveProperties(d, k);
    var v := Get(d, k);
    if v.Some? {
      forall x
        ensures Get(MoveToEnd(d, k), x) == Get(d, x)
      {
        GetOfConcat(Remove(d, k), [(k, v.value)], x);
      }
      forall j | 0 <= j < |Remove(d, k)|
        ensures Remove(d, k)[j].0 != k
      {
        assert Remove(d, k)[j] in Remove(d, k);
      }
    }
  }

  /** `d.popitem(last=False)`: the oldest pair goes, everything else stays. */
  lemma PopFirstProperties<K, V>(d: seq<(K, V)>)
    requires Distinct(d) && d != []
    ensures Distinct(d[1..])
    ensures forall x :: Get(d[1..], x) == if x == d[0].0 then None else Get(d, x)
  {
    GetMeansMember(d[1..], d[0].0);
  }
}
