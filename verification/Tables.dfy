/** Insertion-ordered dictionaries: assigning to a known key keeps its place, a new key goes last. */
module Tables {
  import opened Optional

  ghost predicate Keyed<K, V>(t: seq<(K, V)>) {
    forall j, k | 0 <= j < k < |t| :: t[j].0 != t[k].0
  }

  function Find<K(==), V>(t: seq<(K, V)>, key: K): Option<V> {
    if t == [] then None else if t[0].0 == key then Some(t[0].1) else Find(t[1..], key)
  }

  function Put<K(==), V>(t: seq<(K, V)>, key: K, value: V): seq<(K, V)> {
    if t == [] then [(key, value)]
    else if t[0].0 == key then [(key, value)] + t[1..]
    else [t[0]] + Put(t[1..], key, value)
  }

  function Remove<K(==), V>(t: seq<(K, V)>, key: K): seq<(K, V)> {
    if t == [] then []
    else if t[0].0 == key then t[1..]
    else [t[0]] + Remove(t[1..], key)
  }

  /** The entries whose value passes. */
  function Keep<K, V>(t: seq<(K, V)>, p: V -> bool): seq<(K, V)> {
    if t == [] then []
    else if p(t[0].1) then [t[0]] + Keep(t[1..], p)
    else Keep(t[1..], p)
  }

  /** The table without its oldest entries, if it has more than `n`. */
  function Newest<T>(t: seq<T>, n: nat): (r: seq<T>)
    ensures |r| == if |t| <= n then |t| else n
  {
    if |t| <= n then t else t[|t| - n..]
  }

  lemma {:induction false} FindIn<K, V>(t: seq<(K, V)>, key: K)
    ensures Find(t, key).Some? <==> exists k :: 0 <= k < |t| && t[k].0 == key
    ensures Find(t, key).Some? ==> (key, Find(t, key).value) in t
  {
    if t != [] && t[0].0 != key {
      FindIn(t[1..], key);
      if k :| 0 <= k < |t| && t[k].0 == key {
        assert t[1..][k - 1].0 == key;
      }
      if Find(t[1..], key).Some? {
        var j :| 0 <= j < |t[1..]| && t[1..][j].0 == key;
        assert t[j + 1].0 == key;
      }
    }
  }

  lemma KeyedCons<K, V>(first: (K, V), rest: seq<(K, V)>)
    ensures Keyed([first] + rest) <==> Keyed(rest) && forall e | e in rest :: e.0 != first.0
  {
    var all := [first] + rest;
    if Keyed(all) {
      forall e | e in rest ensures e.0 != first.0 {
        var j :| 0 <= j < |rest| && rest[j] == e;
        assert all[0].0 != all[j + 1].0;
      }
      forall j, k | 0 <= j < k < |rest| ensures rest[j].0 != rest[k].0 {
        assert all[j + 1].0 != all[k + 1].0;
      }
    }
    if Keyed(rest) && forall e | e in rest :: e.0 != first.0 {
      forall j, k | 0 <= j < k < |all| ensures all[j].0 != all[k].0 {
        assert rest[k - 1] in rest;
      }
    }
  }

  lemma MemberCons<T>(first: T, rest: seq<T>, e: T)
    ensures e in [first] + rest <==> e == first || e in rest
  {
  }

  /** Assigning changes one entry or appends one. */
  lemma {:induction false} PutMember<K, V>(t: seq<(K, V)>, key: K, value: V, e: (K, V))
    requires Keyed(t)
    ensures e in Put(t, key, value) <==> e == (key, value) || (e in t && e.0 != key)
  {
    if t != [] {
      var first, rest := t[0], t[1..];
      assert t == [first] + rest;
      KeyedCons(first, rest);
      MemberCons(first, rest, e);
      if first.0 == key {
        MemberCons((key, value), rest, e);
      } else {
        PutMember(rest, key, value, e);
        MemberCons(first, Put(rest, key, value), e);
      }
    }
  }

  lemma {:induction false} PutKeyed<K, V>(t: seq<(K, V)>, key: K, value: V)
    requires Keyed(t)
    ensures Keyed(Put(t, key, value))
    ensures |Put(t, key, value)| == |t| + if Find(t, key).Some? then 0 else 1
  {
    if t != [] {
      var first, rest := t[0], t[1..];
      assert t == [first] + rest;
      KeyedCons(first, rest);
      if first.0 == key {
        KeyedCons((key, value), rest);
      } else {
        PutKeyed(rest, key, value);
        forall e | e in Put(rest, key, value) ensures e.0 != first.0 { PutMember(rest, key, value, e); }
        KeyedCons(first, Put(rest, key, value));
      }
    }
  }

  lemma {:induction false} RemoveMember<K, V>(t: seq<(K, V)>, key: K, e: (K, V))
    requires Keyed(t)
    ensures e in Remove(t, key) <==> e in t && e.0 != key
  {
    if t != [] {
      var first, rest := t[0], t[1..];
      assert t == [first] + rest;
      KeyedCons(first, rest);
      MemberCons(first, rest, e);
      if first.0 != key {
        RemoveMember(rest, key, e);
        MemberCons(first, Remove(rest, key), e);
      }
    }
  }

  lemma {:induction false} RemoveKeyed<K, V>(t: seq<(K, V)>, key: K)
    requires Keyed(t)
    ensures Keyed(Remove(t, key)) && |Remove(t, key)| <= |t|
  {
    if t != [] {
      var first, rest := t[0], t[1..];
      assert t == [first] + rest;
      KeyedCons(first, rest);
      if first.0 != key {
        RemoveKeyed(rest, key);
        forall e | e in Remove(rest, key) ensures e.0 != first.0 { RemoveMember(rest, key, e); }
        KeyedCons(first, Remove(rest, key));
      }
    }
  }

  lemma {:induction false} KeepMember<K, V>(t: seq<(K, V)>, p: V -> bool, e: (K, V))
    ensures e in Keep(t, p) <==> e in t && p(e.1)
  {
    if t != [] {
      assert t == [t[0]] + t[1..];
      MemberCons(t[0], t[1..], e);
      KeepMember(t[1..], p, e);
      MemberCons(t[0], Keep(t[1..], p), e);
    }
  }

  lemma {:induction false} KeepKeyed<K, V>(t: seq<(K, V)>, p: V -> bool)
    requires Keyed(t)
    ensures Keyed(Keep(t, p)) && |Keep(t, p)| <= |t|
  {
    if t != [] {
      var first, rest := t[0], t[1..];
      assert t == [first] + rest;
      KeyedCons(first, rest);
      KeepKeyed(rest, p);
      forall e | e in Keep(rest, p) ensures e.0 != first.0 { KeepMember(rest, p, e); }
      KeyedCons(first, Keep(rest, p));
    }
  }

  lemma NewestKeyed<K, V>(t: seq<(K, V)>, n: nat)
    requires Keyed(t)
    ensures Keyed(Newest(t, n)) && forall e | e in Newest(t, n) :: e in t
  {
  }
}
