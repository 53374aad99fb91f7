/** The array-backed tables of hal_info: event handlers by event, commands by request id. */
module WifiTables {
  import opened Options

  datatype Entry<K, V> = Entry(key: K, value: V)

  /** The table after unregistering a key: its first entry is removed, the others keep their order. */
  function RemoveFirst<K(==), V>(es: seq<Entry<K, V>>, key: K): seq<Entry<K, V>> {
    if es == [] then []
    else if es[0].key == key then es[1..]
    else [es[0]] + RemoveFirst(es[1..], key)
  }

  function FindFirst<K(==), V>(es: seq<Entry<K, V>>, key: K): Option<V> {
    if es == [] then None
    else if es[0].key == key then Some(es[0].value)
    else FindFirst(es[1..], key)
  }

  ghost predicate DistinctKeys<K, V>(es: seq<Entry<K, V>>) {
    forall i, j :: 0 <= i < j < |es| ==> es[i].key != es[j].key
  }

  /** With distinct keys a table behaves as a map from keys to values. */
  lemma {:induction false} DistinctTable<K(!new), V(!new)>(es: seq<Entry<K, V>>, key: K)
    requires DistinctKeys(es)
    ensures DistinctKeys(RemoveFirst(es, key))
    ensures forall e :: e in RemoveFirst(es, key) <==> e in es && e.key != key
    ensures forall v :: FindFirst(es, key) == Some(v) <==> Entry(key, v) in es
  {
    if es != [] {
      var tail := es[1..];
      assert es == [es[0]] + tail;
      assert forall e :: e in tail ==> e.key != es[0].key;
      DistinctTable(tail, key);
      var rest := RemoveFirst(tail, key);
      assert forall i :: 0 <= i < |rest| ==> rest[i] in rest;
    }
  }

  ghost predicate FirstAt<K, V>(es: seq<Entry<K, V>>, key: K, i: nat) {
    i < |es| && es[i].key == key && forall k :: 0 <= k < i ==> es[k].key != key
  }

  lemma {:induction false} RemoveFirstIs<K, V>(es: seq<Entry<K, V>>, key: K, i: nat)
    requires FirstAt(es, key, i)
    ensures RemoveFirst(es, key) == es[..i] + es[i + 1..] && FindFirst(es, key) == Some(es[i].value)
  {
    if i > 0 {
      assert FirstAt(es[1..], key, i - 1);
      RemoveFirstIs(es[1..], key, i - 1);
      assert es[..i] == [es[0]] + es[1..][..i - 1];
      assert es[i + 1..] == es[1..][i..];
    }
  }

  /** Unregistering a key drops a given entry exactly when no earlier entry has its key. */
  lemma EntryGoneIff<K, V>(es: seq<Entry<K, V>>, i: nat)
    requires i < |es| && forall k :: 0 <= k < |es| && k != i ==> es[k] != es[i]
    ensures es[i] !in RemoveFirst(es, es[i].key) <==> FirstAt(es, es[i].key, i)
  {
    var f := FirstIndex(es, es[i].key, i);
    RemoveFirstIs(es, es[i].key, f);
    if f < i {
      assert (es[..f] + es[f + 1..])[i - 1] == es[i];
    }
  }

  lemma {:induction false} FirstIndex<K, V>(es: seq<Entry<K, V>>, key: K, i: nat) returns (f: nat)
    requires i < |es| && es[i].key == key
    ensures f <= i && FirstAt(es, key, f)
  {
    if es[0].key == key {
      f := 0;
    } else {
      f := FirstIndex(es[1..], key, i - 1);
      f := f + 1;
    }
  }

  lemma {:induction false} RemoveNone<K, V>(es: seq<Entry<K, V>>, key: K)
    requires forall k :: 0 <= k < |es| ==> es[k].key != key
    ensures RemoveFirst(es, key) == es && FindFirst(es, key) == None
  {
    if es != [] {
      RemoveNone(es[1..], key);
    }
  }

  /** One table: event_cb with num_event_cb, or cmd with num_cmd. */
  class Registry<K(==), V> {
    const data: array<Entry<K, V>>
    var num: nat

    ghost predicate Valid()
      reads this
    {
      num <= data.Length
    }

    ghost function Entries(): seq<Entry<K, V>>
      requires Valid()
      reads this, data
    {
      data[..num]
    }

    constructor (alloc: nat, filler: Entry<K, V>)
      ensures Valid() && Entries() == [] && data.Length == alloc && fresh(data)
    {
      data := new Entry<K, V>[alloc](_ => filler);
      num := 0;
    }

    /** false: WIFI_ERROR_OUT_OF_MEMORY */
    method Register(key: K, value: V) returns (ok: bool)
      requires Valid()
      modifies this, data
      ensures Valid() && ok == (old(num) < data.Length)
      ensures Entries() == if ok then old(Entries()) + [Entry(key, value)] else old(Entries())
    {
      ok := num < data.Length;
      if ok {
        data[num] := Entry(key, value);
        num := num + 1;
      }
    }

    method Unregister(key: K) returns (found: Option<V>)
      requires Valid()
      modifies this, data
      ensures Valid()
      ensures Entries() == RemoveFirst(old(Entries()), key) && found == FindFirst(old(Entries()), key)
    {
      ghost var es := Entries();
      for i := 0 to num
        invariant Valid() && Entries() == es
        invariant forall k :: 0 <= k < i ==> es[k].key != key
      {
        if data[i].key == key {
          found := Some(data[i].value);
          RemoveFirstIs(es, key, i);
          MoveDown(i);
          return;
        }
      }
      RemoveNone(es, key);
      found := None;
    }

    /** memmove of the entries behind i over it. */
    method MoveDown(i: nat)
      requires Valid() && i < num
      modifies this, data
      ensures Valid() && Entries() == old(Entries()[..i] + Entries()[i + 1..])
    {
      ghost var was := data[..];
      for j := i to num - 1
        invariant num == old(num)
        invariant forall k :: 0 <= k < i ==> data[k] == was[k]
        invariant forall k :: i <= k < j ==> data[k] == was[k + 1]
        invariant forall k :: j <= k < num ==> data[k] == was[k]
      {
        data[j] := data[j + 1];
      }
      num := num - 1;
      ghost var es, rest := Entries(), was[..num + 1][..i] + was[..num + 1][i + 1..];
      assert |es| == |rest| && forall k :: 0 <= k < |es| ==> es[k] == rest[k];
    }

    method Get(key: K) returns (found: Option<V>)
      requires Valid()
      ensures found == FindFirst(Entries(), key)
    {
      ghost var es := Entries();
      for i := 0 to num
        invariant forall k :: 0 <= k < i ==> es[k].key != key
      {
        if data[i].key == key {
          RemoveFirstIs(es, key, i);
          return Some(data[i].value);
        }
      }
      RemoveNone(es, key);
      found := None;
    }
  }
}
