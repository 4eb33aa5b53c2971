/** The registry that gives a schema its Swift name, by object first and by structure as a fallback. */
module SchemaNames {
  import opened CanonicalJson
  import opened JsonText
  import opened Text

  /** A schema object: its identity, and the JSON tree it holds. */
  datatype Schema = Schema(identity: nat, json: Json)

  datatype Registration = Registration(name: string, schema: Schema)

  function Signature(r: Registration): string {
    SchemaSignature(r.schema.json)
  }

  /** The registrations made under a signature, oldest first. */
  function WithSignature(history: seq<Registration>, signature: string): seq<Registration> {
    if history == [] then []
    else
      var last := history[|history| - 1];
      WithSignature(history[..|history| - 1], signature) + if Signature(last) == signature then [last] else []
  }

  function StructuralName(history: seq<Registration>, signature: string): Option<string> {
    var registrations := WithSignature(history, signature);
    if |registrations| == 1 then Some(registrations[0].name) else None
  }

  /** The name an object was registered under last. */
  function ObjectName(history: seq<Registration>, schema: Schema): Option<string> {
    if history == [] then None
    else
      var last := history[|history| - 1];
      if last.schema == schema then Some(last.name) else ObjectName(history[..|history| - 1], schema)
  }

  function Lookup<K, V>(m: map<K, V>, key: K): Option<V> {
    if key in m then Some(m[key]) else None
  }

  lemma AppendedObject(history: seq<Registration>, r: Registration, s: Schema)
    ensures ObjectName(history + [r], s) == if r.schema == s then Some(r.name) else ObjectName(history, s)
  {
    assert (history + [r])[..|history|] == history;
  }

  lemma AppendedSignature(history: seq<Registration>, r: Registration, signature: string)
    ensures WithSignature(history + [r], signature) == WithSignature(history, signature) + if Signature(r) == signature then [r] else []
  {
    assert (history + [r])[..|history|] == history;
  }

  class SchemaRegistry {
    var nameByObject: map<Schema, string>
    var nameBySignature: map<string, string>
    var duplicates: set<string>
    ghost var history: seq<Registration>

    ghost predicate Valid()
      reads this
    {
      && (forall s :: Lookup(nameByObject, s) == ObjectName(history, s))
      && (forall signature :: Lookup(nameBySignature, signature) == StructuralName(history, signature))
      && (forall signature :: signature in duplicates <==> |WithSignature(history, signature)| > 1)
    }

    constructor ()
      ensures Valid() && history == []
    {
      nameByObject, nameBySignature, duplicates, history := map[], map[], {}, [];
    }

    method RegisterNamedSchema(name: string, schema: Schema)
      requires Valid()
      modifies this
      ensures Valid() && history == old(history) + [Registration(name, schema)]
    {
      var signature := SchemaSignature(schema.json);
      ghost var r := Registration(name, schema);
      assert Lookup(nameBySignature, signature) == StructuralName(history, signature);
      nameByObject := nameByObject[schema := name];
      if signature in duplicates {
      } else if signature in nameBySignature {
        nameBySignature := nameBySignature - {signature};
        duplicates := duplicates + {signature};
      } else {
        nameBySignature := nameBySignature[signature := name];
      }
      history := history + [r];
      forall s ensures Lookup(nameByObject, s) == ObjectName(history, s) {
        AppendedObject(old(history), r, s);
        assert Lookup(old(nameByObject), s) == ObjectName(old(history), s);
      }
      forall s
        ensures Lookup(nameBySignature, s) == StructuralName(history, s)
        ensures s in duplicates <==> |WithSignature(history, s)| > 1
      {
        AppendedSignature(old(history), r, s);
        assert Lookup(old(nameBySignature), s) == StructuralName(old(history), s);
      }
    }

    method NamedSchema(schema: Schema, allowStructuralFallback: bool) returns (name: Option<string>)
      requires Valid()
      ensures ObjectName(history, schema).Some? ==> name == ObjectName(history, schema)
      ensures ObjectName(history, schema).None? && !allowStructuralFallback ==> name == None
      ensures ObjectName(history, schema).None? && allowStructuralFallback
              ==> name == StructuralName(history, SchemaSignature(schema.json))
    {
      name := Lookup(nameByObject, schema);
      if name.None? && allowStructuralFallback {
        name := Lookup(nameBySignature, SchemaSignature(schema.json));
      }
    }
  }

  // ----- structural names are never ambiguous -----

  /** Registration `i` is the only one of a schema equal to `query` up to key order. */
  ghost predicate OnlySame(history: seq<Registration>, query: Json, i: int) {
    0 <= i < |history| && forall j | 0 <= j < |history| :: Same(history[j].schema.json, query) <==> j == i
  }

  ghost predicate AllProper(history: seq<Registration>) {
    forall i | 0 <= i < |history| :: Proper(history[i].schema.json)
  }

  ghost predicate OnlySigned(history: seq<Registration>, signature: string, i: int) {
    0 <= i < |history| && forall j | 0 <= j < |history| :: Signature(history[j]) == signature <==> j == i
  }

  lemma {:induction false} NoneSigned(history: seq<Registration>, signature: string)
    ensures WithSignature(history, signature) == [] <==> forall j | 0 <= j < |history| :: Signature(history[j]) != signature
  {
    if history == [] {
    } else {
      var n := |history| - 1;
      NoneSigned(history[..n], signature);
      assert forall j | 0 <= j < n :: history[..n][j] == history[j];
    }
  }

  lemma {:induction false} OnlySignedIsSole(history: seq<Registration>, signature: string, i: nat)
    requires OnlySigned(history, signature, i)
    ensures WithSignature(history, signature) == [history[i]]
  {
    var n := |history| - 1;
    assert forall j | 0 <= j < n :: history[..n][j] == history[j];
    if i == n {
      NoneSigned(history[..n], signature);
    } else {
      assert Signature(history[n]) != signature;
      OnlySignedIsSole(history[..n], signature, i);
    }
  }

  lemma {:induction false} SoleIsOnlySigned(history: seq<Registration>, signature: string) returns (i: int)
    requires |WithSignature(history, signature)| == 1
    ensures OnlySigned(history, signature, i)
    ensures WithSignature(history, signature) == [history[i]]
  {
    var n := |history| - 1;
    assert forall j | 0 <= j < n :: history[..n][j] == history[j];
    if Signature(history[n]) == signature {
      i := n;
      NoneSigned(history[..n], signature);
    } else {
      i := SoleIsOnlySigned(history[..n], signature);
    }
  }

  /** A schema gets a structural name exactly when one registration alone had an equal schema, and it is that one's name. */
  lemma StructuralNameMeans(history: seq<Registration>, query: Json, name: string)
    requires AllProper(history) && Proper(query)
    ensures StructuralName(history, SchemaSignature(query)) == Some(name)
            <==> exists i :: OnlySame(history, query, i) && history[i].name == name
  {
    var signature := SchemaSignature(query);
    forall j | 0 <= j < |history| ensures Signature(history[j]) == signature <==> Same(history[j].schema.json, query) {
      SignatureDecides(history[j].schema.json, query);
    }
    assert forall i :: OnlySame(history, query, i) <==> OnlySigned(history, signature, i);
    if i :| OnlySame(history, query, i) {
      OnlySignedIsSole(history, signature, i);
    }
    if |WithSignature(history, signature)| == 1 {
      var i := SoleIsOnlySigned(history, signature);
      assert OnlySame(history, query, i);
    }
  }

  // ----- the order of registrations does not matter -----

  lemma {:induction false} SignedCount(history: seq<Registration>, signature: string, r: Registration)
    ensures multiset(WithSignature(history, signature))[r] == if Signature(r) == signature then multiset(history)[r] else 0
  {
    if history == [] {
    } else {
      var n := |history| - 1;
      SignedCount(history[..n], signature, r);
      assert history == history[..n] + [history[n]];
    }
  }

  lemma OrderDoesNotMatter(a: seq<Registration>, b: seq<Registration>, signature: string)
    requires multiset(a) == multiset(b)
    ensures StructuralName(a, signature) == StructuralName(b, signature)
    ensures |WithSignature(a, signature)| == |WithSignature(b, signature)|
  {
    var wa, wb := WithSignature(a, signature), WithSignature(b, signature);
    forall r ensures multiset(wa)[r] == multiset(wb)[r] {
      SignedCount(a, signature, r);
      SignedCount(b, signature, r);
    }
    SameRegistrations(wa, wb);
  }

  lemma SameRegistrations(a: seq<Registration>, b: seq<Registration>)
    requires forall r :: multiset(a)[r] == multiset(b)[r]
    ensures |a| == |b| && (|a| == 1 ==> a == b)
  {
    assert multiset(a) == multiset(b);
    assert |a| == |multiset(a)| && |b| == |multiset(b)|;
    if |a| == 1 {
      assert a[0] in multiset(a);
      assert a[0] in b;
    }
  }
}
