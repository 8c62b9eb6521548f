/** JavaScript's Map: entries in insertion order, no key twice. */
module JsMap {
  import opened Prelude

  type Entries<V> = seq<(string, V)>

  predicate DistinctKeys<V>(entries: Entries<V>) {
    forall i, j :: 0 <= i < j < |entries| ==> entries[i].0 != entries[j].0
  }

  /** `Map.prototype.set`: a known key keeps its place. */
  function Set<V>(m: Entries<V>, key: string, value: V): Entries<V> {
    if m == [] then [(key, value)]
    else if m[0].0 == key then [(key, value)] + m[1..]
    else [m[0]] + Set(m[1..], key, value)
  }

  /** `new Map(entries)` */
  function NewMap<V>(entries: Entries<V>): Entries<V> {
    if entries == [] then []
    else Set(NewMap(entries[..|entries| - 1]), entries[|entries| - 1].0, entries[|entries| - 1].1)
  }

  function Get<V>(m: Entries<V>, key: string): Option<V> {
    if m == [] then None else if m[0].0 == key then Some(m[0].1) else Get(m[1..], key)
  }

  /** The first value in insertion order that satisfies `wanted`. */
  function Find<V>(m: Entries<V>, wanted: V -> bool): Option<V> {
    if m == [] then None else if wanted(m[0].1) then Some(m[0].1) else Find(m[1..], wanted)
  }

  function Keys<V>(m: Entries<V>): set<string> {
    set i | 0 <= i < |m| :: m[i].0
  }

  lemma {:induction false} SetNewKey<V>(m: Entries<V>, key: string, value: V)
    requires forall i :: 0 <= i < |m| ==> m[i].0 != key
    ensures Set(m, key, value) == m + [(key, value)]
  {
    if m != [] {
      SetNewKey(m[1..], key, value);
    }
  }

  /** Entries of a Map build the same Map again, in the same order. */
  lemma {:induction false} NewMapKeeps<V>(entries: Entries<V>)
    requires DistinctKeys(entries)
    ensures NewMap(entries) == entries
  {
    if entries != [] {
      var n := |entries| - 1;
      NewMapKeeps(entries[..n]);
      SetNewKey(entries[..n], entries[n].0, entries[n].1);
      assert entries == entries[..n] + [entries[n]];
    }
  }

  lemma {:induction false} SetKeepsDistinct<V>(m: Entries<V>, key: string, value: V)
    requires DistinctKeys(m)
    ensures DistinctKeys(Set(m, key, value))
    ensures forall i :: 0 <= i < |Set(m, key, value)| ==>
              Set(m, key, value)[i].0 == key || exists j :: 0 <= j < |m| && m[j].0 == Set(m, key, value)[i].0
  {
    if m != [] && m[0].0 != key {
      SetKeepsDistinct(m[1..], key, value);
      var rest := Set(m[1..], key, value);
      forall i | 0 <= i < |rest|
        ensures rest[i].0 != m[0].0
        ensures rest[i].0 == key || exists j :: 0 <= j < |m| && m[j].0 == rest[i].0
      {
        if rest[i].0 != key {
          var j :| 0 <= j < |m[1..]| && m[1..][j].0 == rest[i].0;
          assert m[j + 1].0 == rest[i].0;
        }
      }
    }
  }

  /** A Map built from any entries at all, repeated keys included, is a Map. */
  lemma {:induction false} NewMapIsMap<V>(entries: Entries<V>)
    ensures DistinctKeys(NewMap(entries))
  {
    if entries != [] {
      var n := |entries| - 1;
      NewMapIsMap(entries[..n]);
      SetKeepsDistinct(NewMap(entries[..n]), entries[n].0, entries[n].1);
    }
  }

  lemma PairsOfCons<V>(m: Entries<V>)
    requires m != []
    ensures forall p :: p in m <==> p == m[0] || p in m[1..]
    ensures Keys(m) == {m[0].0} + Keys(m[1..])
  {
  }

  lemma {:induction false} SetMeaning<V>(m: Entries<V>, key: string, value: V)
    requires DistinctKeys(m)
    ensures DistinctKeys(Set(m, key, value))
    ensures Keys(Set(m, key, value)) == Keys(m) + {key}
    ensures forall p :: p in Set(m, key, value) <==> p == (key, value) || (p in m && p.0 != key)
  {
    SetKeepsDistinct(m, key, value);
    PairsOfCons(Set(m, key, value));
    if m != [] {
      PairsOfCons(m);
      if m[0].0 != key {
        SetMeaning(m[1..], key, value);
        assert Set(m, key, value)[1..] == Set(m[1..], key, value);
      }
    }
  }

  /** A value set is the one got, and every other key keeps its value. */
  lemma {:induction false} GetAfterSet<V>(m: Entries<V>, key: string, value: V, other: string)
    ensures Get(Set(m, key, value), other) == if other == key then Some(value) else Get(m, other)
  {
    if m != [] && m[0].0 != key {
      GetAfterSet(m[1..], key, value, other);
      assert Set(m, key, value)[1..] == Set(m[1..], key, value);
    }
  }

  /** A known key keeps its place. */
  lemma {:induction false} SetKnownKey<V>(m: Entries<V>, i: nat, value: V)
    requires i < |m| && forall j :: 0 <= j < i ==> m[j].0 != m[i].0
    ensures Set(m, m[i].0, value) == m[i := (m[i].0, value)]
  {
    if i > 0 {
      SetKnownKey(m[1..], i - 1, value);
    }
  }

  lemma {:induction false} GetMeaning<V>(m: Entries<V>, key: string)
    requires DistinctKeys(m)
    ensures Get(m, key).Some? <==> key in Keys(m)
    ensures Get(m, key).Some? ==> (key, Get(m, key).value) in m
    ensures forall p :: p in m && p.0 == key ==> Get(m, key) == Some(p.1)
  {
    if m != [] {
      PairsOfCons(m);
      GetMeaning(m[1..], key);
    }
  }

  lemma {:induction false} FindMeaning<V>(m: Entries<V>, wanted: V -> bool)
    ensures Find(m, wanted).Some? ==>
              wanted(Find(m, wanted).value) && exists p :: p in m && p.1 == Find(m, wanted).value
    ensures Find(m, wanted).None? ==> forall p :: p in m ==> !wanted(p.1)
  {
    if m != [] {
      PairsOfCons(m);
      if !wanted(m[0].1) {
        FindMeaning(m[1..], wanted);
      } else {
        assert m[0] in m;
      }
    }
  }
}
