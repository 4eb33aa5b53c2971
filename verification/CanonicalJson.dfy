/** The canonical form of JSON trees that serves as a schema's signature, down to the
    rendered text, and equality up to key order, which it decides. */
module CanonicalJson {
  import opened OrderedMap
  import StringOrder

  /** A number is kept as the text it is rendered to. */
  datatype Json =
    | Null | Bool(b: bool) | Number(lexeme: string) | Str(s: string)
    | Array(items: seq<Json>) | Object(fields: seq<Pair<Json>>)

  // ----- equality up to key order -----

  ghost predicate Same(a: Json, b: Json)
    decreases a
  {
    match a
    case Array(items) =>
      b.Array? && |items| == |b.items| && forall i | 0 <= i < |items| :: Same(items[i], b.items[i])
    case Object(fields) => b.Object? && SameFields(fields, b.fields)
    case _ => a == b
  }

  ghost predicate SameFields(a: seq<Pair<Json>>, b: seq<Pair<Json>>)
    decreases a, 1
  {
    && (forall i | 0 <= i < |a| :: FoundIn(a[i], b))
    && (forall j | 0 <= j < |b| :: Finds(a, b[j]))
  }

  /** Some field has the key of `p` and the same value as `p`, up to key order. */
  ghost predicate FoundIn(p: Pair<Json>, fields: seq<Pair<Json>>)
    decreases p
  {
    exists j | 0 <= j < |fields| :: p.key == fields[j].key && Same(p.value, fields[j].value)
  }

  ghost predicate Finds(fields: seq<Pair<Json>>, p: Pair<Json>)
    decreases fields, 0
  {
    exists i | 0 <= i < |fields| :: fields[i].key == p.key && Same(fields[i].value, p.value)
  }

  /** What a parsed JSON value is: distinct keys in every object, numbers as numbers are written. */
  ghost predicate Proper(j: Json) {
    match j
    case Number(lexeme) => IsNumber(lexeme)
    case Array(items) => forall i | 0 <= i < |items| :: Proper(items[i])
    case Object(fields) => DistinctKeys(fields) && forall i | 0 <= i < |fields| :: Proper(fields[i].value)
    case _ => true
  }

  predicate IsNumberChar(c: char) {
    '0' <= c <= '9' || c == '-' || c == '+' || c == '.' || c == 'e'
  }

  predicate IsNumber(s: string) {
    s != "" && (s[0] == '-' || '0' <= s[0] <= '9') && forall i | 0 <= i < |s| :: IsNumberChar(s[i])
  }

  // ----- the canonical form -----

  function StableItems(items: seq<Json>): seq<Json> {
    if items == [] then [] else [StableJson(items[0])] + StableItems(items[1..])
  }

  function StableFields(fields: seq<Pair<Json>>): seq<Pair<Json>> {
    if fields == [] then [] else [Pair(fields[0].key, StableJson(fields[0].value))] + StableFields(fields[1..])
  }

  function StableJson(j: Json): Json {
    match j
    case Array(items) => Array(StableItems(items))
    case Object(fields) => Object(SortPairs(StableFields(fields)))
    case _ => j
  }

  lemma {:induction false} StableItemsAt(items: seq<Json>)
    ensures |StableItems(items)| == |items| && forall i | 0 <= i < |items| :: StableItems(items)[i] == StableJson(items[i])
  {
    if items == [] {
    } else {
      StableItemsAt(items[1..]);
    }
  }

  lemma {:induction false} StableFieldsAt(fields: seq<Pair<Json>>)
    ensures var stable := StableFields(fields);
            |stable| == |fields| && forall i | 0 <= i < |fields| :: stable[i] == Pair(fields[i].key, StableJson(fields[i].value))
  {
    if fields == [] {
    } else {
      StableFieldsAt(fields[1..]);
    }
  }

  lemma {:induction false} SortDetermined<V>(a: seq<Pair<V>>, b: seq<Pair<V>>)
    requires AscendingPairs(a) && AscendingPairs(b) && forall q :: q in a <==> q in b
    ensures a == b
  {
    assert a != [] ==> a[0] in a;
    assert b != [] ==> b[0] in b;
    if a == [] {
    } else {
      SameHead(a, b);
      forall q ensures q in a[1..] <==> q in b[1..] {
        TailMember(a, q);
        TailMember(b, q);
      }
      SortDetermined(a[1..], b[1..]);
    }
  }

  lemma TailMember<V>(a: seq<Pair<V>>, q: Pair<V>)
    requires a != [] && AscendingPairs(a)
    ensures q in a[1..] <==> q in a && q != a[0]
  {
    AscendingDistinct(a);
    if q in a && q != a[0] {
      var i :| 0 <= i < |a| && a[i] == q;
      assert a[1..][i - 1] == q;
    }
  }

  lemma SameHead<V>(a: seq<Pair<V>>, b: seq<Pair<V>>)
    requires a != [] && b != [] && AscendingPairs(a) && AscendingPairs(b) && forall q :: q in a <==> q in b
    ensures a[0] == b[0]
  {
    assert a[0] in b && b[0] in a;
    var i :| 0 <= i < |b| && b[i] == a[0];
    var j :| 0 <= j < |a| && a[j] == b[0];
    StringOrder.LessTotal(a[0].key, b[0].key);
  }

  /** The canonical form is canonical: equal exactly for values equal up to key order at every depth. */
  lemma {:induction false} StableIsCanonical(a: Json, b: Json)
    requires Proper(a) && Proper(b)
    ensures StableJson(a) == StableJson(b) <==> Same(a, b)
    decreases a
  {
    if a.Array? && b.Array? {
      ArraysCanonical(a.items, b.items);
    } else if a.Object? && b.Object? {
      FieldsAgree(a.fields, b.fields);
      StableObjects(a.fields, b.fields);
    }
  }

  lemma ArraysCanonical(a: seq<Json>, b: seq<Json>)
    requires Proper(Array(a)) && Proper(Array(b))
    ensures StableItems(a) == StableItems(b) <==> Same(Array(a), Array(b))
    decreases a, 0
  {
    forall i | 0 <= i < |a| && |a| == |b| ensures StableJson(a[i]) == StableJson(b[i]) <==> Same(a[i], b[i]) {
      StableIsCanonical(a[i], b[i]);
    }
    StableArrays(a, b);
  }

  lemma FieldsAgree(a: seq<Pair<Json>>, b: seq<Pair<Json>>)
    requires AllFieldsProper(a) && AllFieldsProper(b)
    ensures Agree(a, b)
    decreases a, 0
  {
    forall i, j | 0 <= i < |a| && 0 <= j < |b|
      ensures StableJson(a[i].value) == StableJson(b[j].value) <==> Same(a[i].value, b[j].value)
    {
      StableIsCanonical(a[i].value, b[j].value);
    }
  }

  ghost predicate AllFieldsProper(fields: seq<Pair<Json>>) {
    forall i | 0 <= i < |fields| :: Proper(fields[i].value)
  }

  lemma StableArrays(a: seq<Json>, b: seq<Json>)
    requires |a| == |b| ==> forall i | 0 <= i < |a| :: StableJson(a[i]) == StableJson(b[i]) <==> Same(a[i], b[i])
    ensures StableItems(a) == StableItems(b) <==> |a| == |b| && forall i | 0 <= i < |a| :: Same(a[i], b[i])
  {
    StableItemsAt(a);
    StableItemsAt(b);
    assert |a| == |b| ==> (StableItems(a) == StableItems(b) <==> forall i | 0 <= i < |a| :: StableItems(a)[i] == StableItems(b)[i]);
  }

  /** The canonical value of a field decides whether its same is found among other fields. */
  ghost predicate Agree(a: seq<Pair<Json>>, b: seq<Pair<Json>>) {
    forall i, j | 0 <= i < |a| && 0 <= j < |b| :: StableJson(a[i].value) == StableJson(b[j].value) <==> Same(a[i].value, b[j].value)
  }

  lemma StableFoundIn(a: seq<Pair<Json>>, b: seq<Pair<Json>>, i: nat)
    requires Agree(a, b) && i < |a|
    ensures |StableFields(a)| == |a| && (StableFields(a)[i] in StableFields(b) <==> FoundIn(a[i], b))
  {
    var sa, sb := StableFields(a), StableFields(b);
    StableFieldsAt(a);
    StableFieldsAt(b);
    if FoundIn(a[i], b) {
      var j :| 0 <= j < |b| && a[i].key == b[j].key && Same(a[i].value, b[j].value);
      assert sb[j] == sa[i];
    }
    if sa[i] in sb {
      var j :| 0 <= j < |sb| && sb[j] == sa[i];
      assert a[i].key == b[j].key && Same(a[i].value, b[j].value);
    }
  }

  lemma StableFinds(a: seq<Pair<Json>>, b: seq<Pair<Json>>, j: nat)
    requires Agree(a, b) && j < |b|
    ensures |StableFields(b)| == |b| && (StableFields(b)[j] in StableFields(a) <==> Finds(a, b[j]))
  {
    var sa, sb := StableFields(a), StableFields(b);
    StableFieldsAt(a);
    StableFieldsAt(b);
    if Finds(a, b[j]) {
      var i :| 0 <= i < |a| && a[i].key == b[j].key && Same(a[i].value, b[j].value);
      assert sa[i] == sb[j];
    }
    if sb[j] in sa {
      var i :| 0 <= i < |sa| && sa[i] == sb[j];
      assert a[i].key == b[j].key && Same(a[i].value, b[j].value);
    }
  }

  lemma SameMembers<V>(a: seq<Pair<V>>, b: seq<Pair<V>>)
    requires DistinctKeys(a) && DistinctKeys(b)
    ensures SortPairs(a) == SortPairs(b) <==> AllIn(a, b) && AllIn(b, a)
  {
    SortPairsSorted(a);
    SortPairsSorted(b);
    if AllIn(a, b) && AllIn(b, a) {
      forall q ensures q in SortPairs(a) <==> q in SortPairs(b) {
      }
      SortDetermined(SortPairs(a), SortPairs(b));
    }
    if SortPairs(a) == SortPairs(b) {
      assert forall q :: q in a <==> q in b;
      assert forall i | 0 <= i < |a| :: a[i] in a;
      assert forall j | 0 <= j < |b| :: b[j] in b;
    }
  }

  ghost predicate AllIn<V>(sa: seq<Pair<V>>, sb: seq<Pair<V>>) {
    forall i | 0 <= i < |sa| :: sa[i] in sb
  }

  lemma AllFound(a: seq<Pair<Json>>, b: seq<Pair<Json>>)
    requires Agree(a, b)
    ensures AllIn(StableFields(a), StableFields(b)) <==> forall i | 0 <= i < |a| :: FoundIn(a[i], b)
  {
    StableFieldsAt(a);
    forall i | 0 <= i < |a| ensures StableFields(a)[i] in StableFields(b) <==> FoundIn(a[i], b) {
      StableFoundIn(a, b, i);
    }
  }

  lemma AllFind(a: seq<Pair<Json>>, b: seq<Pair<Json>>)
    requires Agree(a, b)
    ensures AllIn(StableFields(b), StableFields(a)) <==> forall j | 0 <= j < |b| :: Finds(a, b[j])
  {
    StableFieldsAt(b);
    forall j | 0 <= j < |b| ensures StableFields(b)[j] in StableFields(a) <==> Finds(a, b[j]) {
      StableFinds(a, b, j);
    }
  }

  lemma StableDistinct(fields: seq<Pair<Json>>)
    requires DistinctKeys(fields)
    ensures DistinctKeys(StableFields(fields))
  {
    StableFieldsAt(fields);
  }

  lemma StableObjects(a: seq<Pair<Json>>, b: seq<Pair<Json>>)
    requires DistinctKeys(a) && DistinctKeys(b) && Agree(a, b)
    ensures SortPairs(StableFields(a)) == SortPairs(StableFields(b))
            <==> SameFields(a, b)
  {
    StableDistinct(a);
    StableDistinct(b);
    SameMembers(StableFields(a), StableFields(b));
    AllFound(a, b);
    AllFind(a, b);
  }
}
