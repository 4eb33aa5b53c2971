/** Insertion-ordered maps with string keys, as the script runtime's objects and
    Maps behave: setting an existing key keeps its place, a new key goes last. */
module OrderedMap {
  import opened Text
  import opened StringOrder

  datatype Pair<+V> = Pair(key: string, value: V)

  function Get<V>(m: seq<Pair<V>>, key: string): Option<V> {
    if m == [] then None
    else if m[0].key == key then Some(m[0].value)
    else Get(m[1..], key)
  }

  function Set<V>(m: seq<Pair<V>>, key: string, value: V): seq<Pair<V>> {
    if m == [] then [Pair(key, value)]
    else if m[0].key == key then [Pair(key, value)] + m[1..]
    else [m[0]] + Set(m[1..], key, value)
  }

  ghost predicate DistinctKeys<V>(m: seq<Pair<V>>) {
    forall i, j | 0 <= i < j < |m| :: m[i].key != m[j].key
  }

  /** Same keys, same values; the order does not matter to a reader of the map. */
  ghost predicate SameMap<V>(m: seq<Pair<V>>, n: seq<Pair<V>>) {
    forall key :: Get(m, key) == Get(n, key)
  }

  lemma {:induction false} GetSet<V>(m: seq<Pair<V>>, key: string, value: V, other: string)
    ensures Get(Set(m, key, value), other) == if other == key then Some(value) else Get(m, other)
  {
    if m == [] {
    } else if m[0].key != key {
      GetSet(m[1..], key, value, other);
      assert ([m[0]] + Set(m[1..], key, value))[1..] == Set(m[1..], key, value);
    } else {
      assert ([Pair(key, value)] + m[1..])[1..] == m[1..];
    }
  }

  lemma {:induction false} GetIn<V>(m: seq<Pair<V>>, key: string)
    ensures Get(m, key).Some? ==> Pair(key, Get(m, key).value) in m
    ensures Get(m, key).None? <==> forall p | p in m :: p.key != key
  {
    if m == [] {
    } else {
      GetIn(m[1..], key);
      assert forall p | p in m :: p == m[0] || p in m[1..];
    }
  }

  lemma GetAt<V>(m: seq<Pair<V>>, i: nat)
    requires DistinctKeys(m) && i < |m|
    ensures Get(m, m[i].key) == Some(m[i].value)
  {
    GetIn(m, m[i].key);
    assert m[i] in m;
  }

  lemma {:induction false} SetAppends<V>(m: seq<Pair<V>>, key: string, value: V)
    requires Get(m, key).None?
    ensures Set(m, key, value) == m + [Pair(key, value)]
  {
    if m == [] {
    } else {
      SetAppends(m[1..], key, value);
    }
  }

  lemma {:induction false} GetAppended<V>(m: seq<Pair<V>>, p: Pair<V>, key: string)
    ensures Get(m + [p], key) == if Get(m, key).Some? || p.key != key then Get(m, key) else Some(p.value)
  {
    if m == [] {
      assert m + [p] == [p];
    } else {
      GetAppended(m[1..], p, key);
      assert (m + [p])[1..] == m[1..] + [p];
    }
  }

  lemma {:induction false} SetMembers<V>(m: seq<Pair<V>>, key: string, value: V, p: Pair<V>)
    requires p in Set(m, key, value)
    ensures p in m || p == Pair(key, value)
  {
    if m == [] {
    } else if m[0].key != key && p != m[0] {
      SetMembers(m[1..], key, value, p);
    }
  }

  // ----- sorted by key -----

  function InsertPair<V>(m: seq<Pair<V>>, p: Pair<V>): seq<Pair<V>> {
    if m == [] then [p]
    else if Less(p.key, m[0].key) then [p] + m
    else [m[0]] + InsertPair(m[1..], p)
  }

  function SortPairs<V>(m: seq<Pair<V>>): seq<Pair<V>> {
    if m == [] then [] else InsertPair(SortPairs(m[1..]), m[0])
  }

  ghost predicate AscendingPairs<V>(m: seq<Pair<V>>) {
    forall i, j | 0 <= i < j < |m| :: Less(m[i].key, m[j].key)
  }

  lemma {:induction false} InsertPairMember<V>(m: seq<Pair<V>>, p: Pair<V>, q: Pair<V>)
    ensures q in InsertPair(m, p) <==> q == p || q in m
  {
    if m == [] {
    } else {
      InsertPairMember(m[1..], p, q);
    }
  }

  lemma {:induction false} SortPairsMember<V>(m: seq<Pair<V>>, q: Pair<V>)
    ensures q in SortPairs(m) <==> q in m
  {
    if m == [] {
    } else {
      SortPairsMember(m[1..], q);
      InsertPairMember(SortPairs(m[1..]), m[0], q);
    }
  }

  lemma {:induction false} InsertPairSorted<V>(m: seq<Pair<V>>, p: Pair<V>)
    requires AscendingPairs(m) && forall i | 0 <= i < |m| :: m[i].key != p.key
    ensures AscendingPairs(InsertPair(m, p))
  {
    if m == [] {
    } else {
      LessTotal(p.key, m[0].key);
      if Less(p.key, m[0].key) {
        forall j | 0 <= j < |m| ensures Less(p.key, m[j].key) {
          if j > 0 {
            LessTransitive(p.key, m[0].key, m[j].key);
          }
        }
      } else {
        var rest := InsertPair(m[1..], p);
        InsertPairSorted(m[1..], p);
        forall j | 0 <= j < |rest| ensures Less(m[0].key, rest[j].key) {
          InsertPairMember(m[1..], p, rest[j]);
        }
      }
    }
  }

  lemma {:induction false} SortPairsSorted<V>(m: seq<Pair<V>>)
    requires DistinctKeys(m)
    ensures AscendingPairs(SortPairs(m))
    ensures forall q :: q in SortPairs(m) <==> q in m
  {
    forall q ensures q in SortPairs(m) <==> q in m {
      SortPairsMember(m, q);
    }
    if m == [] {
    } else {
      SortPairsSorted(m[1..]);
      var rest := SortPairs(m[1..]);
      forall i | 0 <= i < |rest| ensures rest[i].key != m[0].key {
        SortPairsMember(m[1..], rest[i]);
      }
      InsertPairSorted(rest, m[0]);
    }
  }

  lemma AscendingDistinct<V>(m: seq<Pair<V>>)
    requires AscendingPairs(m)
    ensures DistinctKeys(m)
  {
    forall i, j | 0 <= i < j < |m| ensures m[i].key != m[j].key {
      LessTotal(m[i].key, m[j].key);
    }
  }

  lemma SameMembersSameGet<V>(m: seq<Pair<V>>, n: seq<Pair<V>>, key: string)
    requires DistinctKeys(m) && DistinctKeys(n) && forall q :: q in m <==> q in n
    ensures Get(m, key) == Get(n, key)
  {
    GetIn(m, key);
    GetIn(n, key);
    if Get(m, key).Some? {
      var p := Pair(key, Get(m, key).value);
      var i :| 0 <= i < |n| && n[i] == p;
      GetAt(n, i);
    }
  }

  lemma {:induction false} SortSorted<V>(m: seq<Pair<V>>)
    requires AscendingPairs(m)
    ensures SortPairs(m) == m
  {
    if m == [] {
    } else {
      SortSorted(m[1..]);
    }
  }

  lemma {:induction false} SetInPlace<V>(m: seq<Pair<V>>, key: string, value: V)
    requires Get(m, key).Some?
    ensures var n := Set(m, key, value);
            |n| == |m| && forall i | 0 <= i < |m| :: n[i].key == m[i].key && (n[i] == m[i] || n[i] == Pair(key, value))
  {
    if m[0].key != key {
      SetInPlace(m[1..], key, value);
    }
  }

  lemma SetDistinct<V>(m: seq<Pair<V>>, key: string, value: V)
    requires DistinctKeys(m)
    ensures DistinctKeys(Set(m, key, value))
  {
    GetIn(m, key);
    if Get(m, key).None? {
      SetAppends(m, key, value);
      assert forall i | 0 <= i < |m| :: m[i] in m;
    } else {
      SetInPlace(m, key, value);
    }
  }
}
