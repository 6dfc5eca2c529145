/** A JavaScript `Map` with string keys: entries in insertion order; setting a key
    that is present keeps its place. */
module JsMap {
  import opened Lists

  function Get<V>(m: seq<(string, V)>, key: string): Option<V> {
    if m == [] then None else if m[0].0 == key then Some(m[0].1) else Get(m[1..], key)
  }

  function Set<V>(m: seq<(string, V)>, key: string, value: V): seq<(string, V)> {
    if m == [] then [(key, value)]
    else if m[0].0 == key then [(key, value)] + m[1..]
    else [m[0]] + Set(m[1..], key, value)
  }

  predicate Has<V>(m: seq<(string, V)>, key: string) {
    Get(m, key).Some?
  }

  /** `m.get(key) ?? default` */
  function GetOr<V>(m: seq<(string, V)>, key: string, default: V): V {
    match Get(m, key)
    case None => default
    case Some(v) => v
  }

  function Key<V>(): ((string, V)) -> string {
    (entry: (string, V)) => entry.0
  }

  /** No key twice. */
  ghost predicate Keyed<V(!new)>(m: seq<(string, V)>) {
    Distinct(m, Key())
  }

  lemma {:induction false} GetSet<V>(m: seq<(string, V)>, key: string, value: V, other: string)
    ensures Get(Set(m, key, value), other) == if other == key then Some(value) else Get(m, other)
  {
    if m != [] && m[0].0 != key {
      GetSet(m[1..], key, value, other);
    }
  }

  lemma {:induction false} SetKeyed<V(!new)>(m: seq<(string, V)>, key: string, value: V)
    requires Keyed(m)
    ensures Keyed(Set(m, key, value))
    ensures forall e :: e in Set(m, key, value) ==> e == (key, value) || (e in m && e.0 != key)
    ensures (key, value) in Set(m, key, value)
  {
    if m != [] {
      if m[0].0 == key {
        assert Set(m, key, value)[1..] == m[1..];
        assert forall e :: e in m[1..] ==> Key<V>()(e) != key;
      } else {
        SetKeyed(m[1..], key, value);
        assert Set(m, key, value)[1..] == Set(m[1..], key, value);
      }
    }
  }

  lemma {:induction false} GetEntry<V(!new)>(m: seq<(string, V)>, key: string)
    requires Keyed(m)
    ensures forall v :: (key, v) in m <==> Get(m, key) == Some(v)
  {
    if m != [] {
      GetEntry(m[1..], key);
      assert forall e :: e in m[1..] ==> Key<V>()(e) != m[0].0;
    }
  }

  lemma {:induction false} GetAbsent<V(!new)>(m: seq<(string, V)>, key: string)
    requires forall e :: e in m ==> Key<V>()(e) != key
    ensures Get(m, key) == None
  {
    if m != [] {
      assert Key<V>()(m[0]) != key;
      GetAbsent(m[1..], key);
    }
  }
}
