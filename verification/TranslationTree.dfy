/** Translation maps are trees of named texts; the sync works on their flattened
    form, a map from dotted key to text, and rebuilds a tree from it. */
module TranslationTree {
  import opened Text
  import opened OrderedMap

  datatype Value = Leaf(text: string) | Node(entries: seq<Entry>)

  /** A named text or sub-object of a translation map. */
  type Entry = Pair<Value>

  /** A dotted key and its text in the flattened form. */
  type FlatPair = Pair<string>

  // ----- flattening and rebuilding -----

  function FullKey(prefix: string, name: string): string {
    if prefix != "" then prefix + "." + name else name
  }

  function FlattenInto(entries: seq<Entry>, prefix: string, out: seq<FlatPair>): seq<FlatPair> {
    if entries == [] then out
    else
      var key := FullKey(prefix, entries[0].key);
      FlattenInto(entries[1..], prefix,
                  match entries[0].value
                  case Leaf(text) => Set(out, key, text)
                  case Node(sub) => FlattenInto(sub, key, out))
  }

  function Flatten(entries: seq<Entry>): seq<FlatPair> {
    FlattenInto(entries, "", [])
  }

  method FlattenTranslations(entries: seq<Entry>, prefix: string, out: seq<FlatPair>) returns (result: seq<FlatPair>)
    ensures result == FlattenInto(entries, prefix, out)
    decreases entries
  {
    result := out;
    for i := 0 to |entries|
      invariant FlattenInto(entries[i..], prefix, result) == FlattenInto(entries, prefix, out)
    {
      assert entries[i..][0] == entries[i] && entries[i..][1..] == entries[i + 1..];
      var key := FullKey(prefix, entries[i].key);
      match entries[i].value
      case Leaf(text) => result := Set(result, key, text);
      case Node(sub) => result := FlattenTranslations(sub, key, result);
    }
  }

  lemma {:induction false} FlattenDistinct(entries: seq<Entry>, prefix: string, out: seq<FlatPair>)
    requires DistinctKeys(out)
    ensures DistinctKeys(FlattenInto(entries, prefix, out))
  {
    if entries == [] {
    } else {
      var key := FullKey(prefix, entries[0].key);
      match entries[0].value
      case Leaf(text) =>
        SetDistinct(out, key, text);
        FlattenDistinct(entries[1..], prefix, Set(out, key, text));
      case Node(sub) =>
        FlattenDistinct(sub, key, out);
        FlattenDistinct(entries[1..], prefix, FlattenInto(sub, key, out));
    }
  }

  /** Split at every dot; there is always at least one part. */
  function Split(key: string): (parts: seq<string>)
    ensures parts != []
  {
    if key == "" then [""]
    else
      var rest := Split(key[1..]);
      if key[0] == '.' then [""] + rest else [[key[0]] + rest[0]] + rest[1..]
  }

  /** The sub-object under `name`; a text or nothing there gives way to an empty one. */
  function SubObject(entries: seq<Entry>, name: string): seq<Entry> {
    match Get<Value>(entries, name)
    case Some(Node(sub)) => sub
    case _ => []
  }

  function SetPath(entries: seq<Entry>, parts: seq<string>, text: string): seq<Entry>
    requires parts != []
    decreases |parts|
  {
    if |parts| == 1 then Set(entries, parts[0], Leaf(text))
    else
      var sub := SubObject(entries, parts[0]);
      Set(entries, parts[0], Node(SetPath(sub, parts[1..], text)))
  }

  function SetNestedValue(root: seq<Entry>, dottedKey: string, text: string): seq<Entry> {
    SetPath(root, Split(dottedKey), text)
  }

  function SetAll(root: seq<Entry>, pairs: seq<FlatPair>): seq<Entry>
    decreases |pairs|
  {
    if pairs == [] then root
    else SetAll(SetNestedValue(root, pairs[0].key, pairs[0].value), pairs[1..])
  }

  /** The tree built from a flattened map, as the sync builds the next locale. */
  function Rebuild(pairs: seq<FlatPair>): seq<Entry> {
    SetAll([], pairs)
  }

  // ----- the text at a path -----

  function Lookup(entries: seq<Entry>, parts: seq<string>): Option<string>
    requires parts != []
    decreases |parts|
  {
    match Get<Value>(entries, parts[0])
    case Some(Leaf(text)) => if |parts| == 1 then Some(text) else None
    case Some(Node(sub)) => if |parts| == 1 then None else Lookup(sub, parts[1..])
    case None => None
  }

  /** Setting a path changes the text there, clears whatever the path runs through or
      covers, and nothing else. */
  lemma {:induction false} LookupSetPath(entries: seq<Entry>, put: seq<string>, text: string, get: seq<string>)
    requires put != [] && get != []
    ensures Lookup(SetPath(entries, put, text), get)
            == if get == put then Some(text) else if get <= put || put <= get then None else Lookup(entries, get)
    decreases |put|
  {
    var sub := SubObject(entries, put[0]);
    if |put| == 1 {
      GetSet(entries, put[0], Leaf(text), get[0]);
    } else {
      GetSet(entries, put[0], Node(SetPath(sub, put[1..], text)), get[0]);
      if get[0] == put[0] && |get| > 1 {
        LookupSetPath(sub, put[1..], text, get[1..]);
        assert put == [put[0]] + put[1..] && get == [get[0]] + get[1..];
      }
    }
    if get[0] == put[0] {
      assert put == [put[0]] + put[1..] && get == [get[0]] + get[1..];
    }
  }

  // ----- leaves in order, and the key a path is flattened to -----

  datatype Path = Path(parts: seq<string>, text: string)

  function Under(name: string, paths: seq<Path>): seq<Path> {
    if paths == [] then []
    else [Path([name] + paths[0].parts, paths[0].text)] + Under(name, paths[1..])
  }

  function Paths(entries: seq<Entry>): seq<Path> {
    if entries == [] then []
    else
      (match entries[0].value
       case Leaf(text) => [Path([entries[0].key], text)]
       case Node(sub) => Under(entries[0].key, Paths(sub)))
      + Paths(entries[1..])
  }

  function KeyFrom(prefix: string, parts: seq<string>): string
    decreases |parts|
  {
    if parts == [] then prefix else KeyFrom(FullKey(prefix, parts[0]), parts[1..])
  }

  function InsertAll(out: seq<FlatPair>, prefix: string, paths: seq<Path>): seq<FlatPair>
    decreases |paths|
  {
    if paths == [] then out
    else InsertAll(Set(out, KeyFrom(prefix, paths[0].parts), paths[0].text), prefix, paths[1..])
  }

  lemma {:induction false} InsertAllConcat(out: seq<FlatPair>, prefix: string, a: seq<Path>, b: seq<Path>)
    ensures InsertAll(out, prefix, a + b) == InsertAll(InsertAll(out, prefix, a), prefix, b)
    decreases |a|
  {
    if a == [] {
      assert a + b == b;
    } else {
      assert (a + b)[1..] == a[1..] + b;
      InsertAllConcat(Set(out, KeyFrom(prefix, a[0].parts), a[0].text), prefix, a[1..], b);
    }
  }

  lemma {:induction false} InsertAllUnder(out: seq<FlatPair>, prefix: string, name: string, paths: seq<Path>)
    ensures InsertAll(out, prefix, Under(name, paths)) == InsertAll(out, FullKey(prefix, name), paths)
    decreases |paths|
  {
    if paths == [] {
    } else {
      assert ([name] + paths[0].parts)[1..] == paths[0].parts;
      InsertAllUnder(Set(out, KeyFrom(FullKey(prefix, name), paths[0].parts), paths[0].text), prefix, name, paths[1..]);
    }
  }

  /** Flattening enters the leaves one by one, each under the key of its path. */
  lemma {:induction false} FlattenInserts(entries: seq<Entry>, prefix: string, out: seq<FlatPair>)
    ensures FlattenInto(entries, prefix, out) == InsertAll(out, prefix, Paths(entries))
  {
    if entries == [] {
    } else {
      var e := entries[0];
      var key := FullKey(prefix, e.key);
      match e.value
      case Leaf(text) =>
        FlattenInserts(entries[1..], prefix, Set(out, key, text));
        InsertAllConcat(out, prefix, [Path([e.key], text)], Paths(entries[1..]));
        assert KeyFrom(prefix, [e.key]) == key && [Path([e.key], text)][1..] == [];
      case Node(sub) =>
        FlattenInserts(sub, key, out);
        FlattenInserts(entries[1..], prefix, FlattenInto(sub, key, out));
        InsertAllUnder(out, prefix, e.key, Paths(sub));
        InsertAllConcat(out, prefix, Under(e.key, Paths(sub)), Paths(entries[1..]));
    }
  }

  ghost predicate HasPath(paths: seq<Path>, prefix: string, key: string, text: string) {
    exists p | p in paths :: KeyFrom(prefix, p.parts) == key && p.text == text
  }

  lemma {:induction false} InsertAllGet(out: seq<FlatPair>, prefix: string, paths: seq<Path>, key: string)
    ensures var got := Get(InsertAll(out, prefix, paths), key);
            && (got.Some? ==> Get(out, key) == got || HasPath(paths, prefix, key, got.value))
            && (Get(out, key).Some? ==> got.Some?)
            && (forall p | p in paths && KeyFrom(prefix, p.parts) == key :: got.Some?)
    decreases |paths|
  {
    if paths == [] {
    } else {
      var p := paths[0];
      var next := Set(out, KeyFrom(prefix, p.parts), p.text);
      GetSet(out, KeyFrom(prefix, p.parts), p.text, key);
      InsertAllGet(next, prefix, paths[1..], key);
      assert forall q | q in paths :: q == p || q in paths[1..];
    }
  }

  // ----- trees with distinct sibling names -----

  ghost predicate WellFormed(entries: seq<Entry>) {
    entries == [] ||
    (&& Get(entries[1..], entries[0].key).None?
     && WellFormed(entries[1..])
     && (entries[0].value.Node? ==> WellFormed(entries[0].value.entries)))
  }

  lemma {:induction false} UnderIn(name: string, paths: seq<Path>, p: Path)
    ensures p in Under(name, paths) <==> |p.parts| > 0 && p.parts[0] == name && Path(p.parts[1..], p.text) in paths
  {
    if paths == [] {
    } else {
      UnderIn(name, paths[1..], p);
      var head := Path([name] + paths[0].parts, paths[0].text);
      if |p.parts| > 0 && p.parts[0] == name {
        assert p.parts == [name] + p.parts[1..];
      }
      if p == head {
        assert p.parts[1..] == paths[0].parts;
      }
    }
  }

  /** In a well-formed tree the leaves in order are exactly what can be looked up. */
  lemma {:induction false} PathsAreLookups(entries: seq<Entry>, p: Path)
    requires WellFormed(entries)
    ensures p in Paths(entries) <==> p.parts != [] && Lookup(entries, p.parts) == Some(p.text)
  {
    if entries == [] {
    } else {
      var e, rest := entries[0], entries[1..];
      PathsAreLookups(rest, p);
      match e.value
      case Leaf(text) =>
        if p.parts != [] && p.parts[0] == e.key {
          assert |p.parts| == 1 ==> p.parts == [e.key];
        }
      case Node(sub) =>
        UnderIn(e.key, Paths(sub), p);
        if p.parts != [] {
          PathsAreLookups(sub, Path(p.parts[1..], p.text));
          if p.parts[0] == e.key && |p.parts| == 1 {
            assert p.parts[1..] == [];
          }
        }
    }
  }

  lemma {:induction false} PutWellFormed(entries: seq<Entry>, name: string, value: Value)
    requires WellFormed(entries) && (value.Node? ==> WellFormed(value.entries))
    ensures WellFormed(Set(entries, name, value))
  {
    if entries == [] {
    } else {
      if entries[0].key == name {
        assert ([Pair(name, value)] + entries[1..])[1..] == entries[1..];
      } else {
        PutWellFormed(entries[1..], name, value);
        GetSet(entries[1..], name, value, entries[0].key);
        assert ([entries[0]] + Set(entries[1..], name, value))[1..] == Set(entries[1..], name, value);
      }
    }
  }

  lemma {:induction false} FoundWellFormed(entries: seq<Entry>, name: string)
    requires WellFormed(entries)
    ensures Get(entries, name).Some? && Get(entries, name).value.Node? ==> WellFormed(Get(entries, name).value.entries)
  {
    if entries == [] {
    } else {
      FoundWellFormed(entries[1..], name);
    }
  }

  lemma {:induction false} SetPathWellFormed(entries: seq<Entry>, parts: seq<string>, text: string)
    requires WellFormed(entries) && parts != []
    ensures WellFormed(SetPath(entries, parts, text))
    decreases |parts|
  {
    if |parts| == 1 {
      PutWellFormed(entries, parts[0], Leaf(text));
    } else {
      var sub := SubObject(entries, parts[0]);
      FoundWellFormed(entries, parts[0]);
      SetPathWellFormed(sub, parts[1..], text);
      PutWellFormed(entries, parts[0], Node(SetPath(sub, parts[1..], text)));
    }
  }

  lemma {:induction false} SetAllWellFormed(root: seq<Entry>, pairs: seq<FlatPair>)
    requires WellFormed(root)
    ensures WellFormed(SetAll(root, pairs))
    decreases |pairs|
  {
    if pairs == [] {
    } else {
      SetPathWellFormed(root, Split(pairs[0].key), pairs[0].value);
      SetAllWellFormed(SetNestedValue(root, pairs[0].key, pairs[0].value), pairs[1..]);
    }
  }

  // ----- dotted keys and their parts -----

  predicate DotFree(part: string) {
    '.' !in part
  }

  lemma SplitDotsFree(c: char, rest: seq<string>)
    requires rest != [] && forall part | part in rest :: DotFree(part)
    ensures forall part | part in [""] + rest :: DotFree(part)
    ensures c != '.' ==> forall part | part in [[c] + rest[0]] + rest[1..] :: DotFree(part)
  {
    assert rest[0] in rest && forall part | part in rest[1..] :: part in rest;
  }

  lemma {:induction false} SplitParts(key: string)
    ensures forall part | part in Split(key) :: DotFree(part)
  {
    if key == "" {
    } else {
      SplitParts(key[1..]);
      SplitDotsFree(key[0], Split(key[1..]));
    }
  }

  lemma {:induction false} SplitRejoins(key: string)
    ensures Join(Split(key), ".") == key
    ensures Split(key)[0] == "" <==> key == "" || key[0] == '.'
  {
    if key == "" {
    } else {
      var rest := Split(key[1..]);
      SplitRejoins(key[1..]);
      if key[0] == '.' {
        assert Split(key)[1..] == rest;
      } else {
        assert Split(key)[1..] == rest[1..];
      }
    }
  }

  lemma SplitJoin(key: string)
    ensures Join(Split(key), ".") == key
    ensures forall part | part in Split(key) :: DotFree(part)
    ensures Split(key)[0] == "" <==> key == "" || key[0] == '.'
  {
    SplitParts(key);
    SplitRejoins(key);
  }

  lemma {:induction false} JoinSplit(parts: seq<string>)
    requires parts != [] && forall part | part in parts :: DotFree(part)
    ensures Split(Join(parts, ".")) == parts
  {
    if |parts| == 1 {
      SplitDotFree(parts[0]);
    } else {
      JoinSplit(parts[1..]);
      SplitAppend(parts[0], Join(parts[1..], "."));
      assert parts[0] + "." + Join(parts[1..], ".") == parts[0] + ("." + Join(parts[1..], "."));
    }
  }

  lemma {:induction false} SplitDotFree(part: string)
    requires DotFree(part)
    ensures Split(part) == [part]
  {
    if part == "" {
    } else {
      assert part[0] in part && part == [part[0]] + part[1..];
      SplitDotFree(part[1..]);
    }
  }

  lemma {:induction false} SplitAppend(part: string, rest: string)
    requires DotFree(part)
    ensures Split(part + ("." + rest)) == [part] + Split(rest)
  {
    var whole := part + ("." + rest);
    if part == "" {
      assert whole[1..] == rest;
    } else {
      assert whole[1..] == part[1..] + ("." + rest);
      assert part[0] in part && part == [part[0]] + part[1..];
      SplitAppend(part[1..], rest);
    }
  }

  lemma {:induction false} KeyFromPrefix(prefix: string, parts: seq<string>)
    requires prefix != "" && parts != []
    ensures KeyFrom(prefix, parts) == prefix + "." + Join(parts, ".")
    decreases |parts|
  {
    if |parts| > 1 {
      KeyFromPrefix(prefix + "." + parts[0], parts[1..]);
    }
  }

  /** A path is flattened to its parts joined by dots, unless its first part is empty
      and not its only one: then the first part is lost. */
  lemma KeyOfParts(parts: seq<string>)
    requires parts != [] && (|parts| == 1 || parts[0] != "")
    ensures KeyFrom("", parts) == Join(parts, ".")
  {
    if |parts| > 1 {
      KeyFromPrefix(parts[0], parts[1..]);
    }
  }

  lemma {:induction false} NoLeadingDot(parts: seq<string>)
    requires forall part | part in parts :: DotFree(part)
    ensures var key := KeyFrom("", parts); key == "" || key[0] != '.'
  {
    if parts == [] {
    } else {
      assert parts[0] in parts && (parts[0] != "" ==> parts[0][0] in parts[0]);
      if parts[0] == "" {
        NoLeadingDot(parts[1..]);
      } else if |parts| > 1 {
        KeyFromPrefix(parts[0], parts[1..]);
      }
    }
  }

  // ----- first round trip: a flattened map, rebuilt and flattened again -----

  /** No key is another key followed by a dot and more. */
  ghost predicate PrefixFree(pairs: seq<FlatPair>) {
    forall i, j | 0 <= i < |pairs| && 0 <= j < |pairs| && i != j :: !(Split(pairs[i].key) <= Split(pairs[j].key))
  }

  ghost predicate NoKeyStartsWithDot(pairs: seq<FlatPair>) {
    forall i | 0 <= i < |pairs| :: !("." <= pairs[i].key)
  }

  ghost predicate At(pairs: seq<FlatPair>, i: int, parts: seq<string>, text: string) {
    0 <= i < |pairs| && Split(pairs[i].key) == parts && pairs[i].value == text
  }

  lemma {:induction false} LookupSetAll(root: seq<Entry>, pairs: seq<FlatPair>, parts: seq<string>)
    requires parts != []
    ensures var got := Lookup(SetAll(root, pairs), parts);
            && (got.Some? ==> got == Lookup(root, parts) || exists i :: At(pairs, i, parts, got.value))
            && (PrefixFree(pairs) ==>
                  && (forall i | 0 <= i < |pairs| && Split(pairs[i].key) == parts :: got == Some(pairs[i].value))
                  && ((forall i | 0 <= i < |pairs| :: !(Split(pairs[i].key) <= parts) && !(parts <= Split(pairs[i].key)))
                      ==> got == Lookup(root, parts)))
    decreases |pairs|
  {
    if pairs == [] {
    } else {
      var first, rest := Split(pairs[0].key), pairs[1..];
      var next := SetNestedValue(root, pairs[0].key, pairs[0].value);
      LookupSetPath(root, first, pairs[0].value, parts);
      LookupSetAll(next, rest, parts);
      var got := Lookup(SetAll(root, pairs), parts);
      if got.Some? && got != Lookup(root, parts) {
        if got == Lookup(next, parts) {
          assert At(pairs, 0, parts, got.value);
        } else {
          var i :| At(rest, i, parts, got.value);
          assert At(pairs, i + 1, parts, got.value);
        }
      }
      if PrefixFree(pairs) {
        assert forall i | 0 <= i < |rest| :: rest[i] == pairs[i + 1];
        assert PrefixFree(rest);
        if first == parts {
          forall i | 0 <= i < |rest| ensures !(Split(rest[i].key) <= parts) && !(parts <= Split(rest[i].key)) {
            assert !(Split(pairs[i + 1].key) <= Split(pairs[0].key)) && !(Split(pairs[0].key) <= Split(pairs[i + 1].key));
          }
        }
        forall i | 0 <= i < |pairs| && Split(pairs[i].key) == parts ensures got == Some(pairs[i].value) {
          if i > 0 {
            assert rest[i - 1] == pairs[i];
          }
        }
      }
    }
  }

  lemma {:induction false} LongerPathMissing(entries: seq<Entry>, parts: seq<string>, longer: seq<string>)
    requires parts != [] && parts < longer
    requires Lookup(entries, parts).Some?
    ensures Lookup(entries, longer).None?
    decreases |parts|
  {
    if |parts| > 1 {
      var sub := Get(entries, parts[0]).value.entries;
      assert parts[1..] < longer[1..];
      LongerPathMissing(sub, parts[1..], longer[1..]);
    }
  }

  /** What a rebuilt tree is flattened to, key by key. */
  lemma FlattenedFrom(pairs: seq<FlatPair>, key: string)
    ensures var got := Get(Flatten(Rebuild(pairs)), key);
            got.Some? ==> !("." <= key)
                          && exists i :: 0 <= i < |pairs| && KeyFrom("", Split(pairs[i].key)) == key && pairs[i].value == got.value
                                         && Lookup(Rebuild(pairs), Split(pairs[i].key)) == got
    ensures forall i | 0 <= i < |pairs| && KeyFrom("", Split(pairs[i].key)) == key && Lookup(Rebuild(pairs), Split(pairs[i].key)).Some? ::
              Get(Flatten(Rebuild(pairs)), key).Some?
  {
    var tree := Rebuild(pairs);
    FlattenInserts(tree, "", []);
    InsertAllGet([], "", Paths(tree), key);
    SetAllWellFormed([], pairs);
    var got := Get(Flatten(tree), key);
    if got.Some? {
      var p :| p in Paths(tree) && KeyFrom("", p.parts) == key && p.text == got.value;
      PathsAreLookups(tree, p);
      LookupSetAll([], pairs, p.parts);
      var i :| At(pairs, i, p.parts, got.value);
      SplitJoin(pairs[i].key);
      NoLeadingDot(p.parts);
      assert KeyFrom("", Split(pairs[i].key)) == key && Lookup(tree, Split(pairs[i].key)) == got;
    }
    forall i | 0 <= i < |pairs| && KeyFrom("", Split(pairs[i].key)) == key && Lookup(tree, Split(pairs[i].key)).Some?
      ensures got.Some?
    {
      var p := Path(Split(pairs[i].key), Lookup(tree, Split(pairs[i].key)).value);
      PathsAreLookups(tree, p);
    }
  }

  lemma KeyOfSplit(key: string)
    requires !("." <= key)
    ensures KeyFrom("", Split(key)) == key
  {
    SplitJoin(key);
    if key == "" {
    } else {
      KeyOfParts(Split(key));
    }
  }

  /** Flattening the rebuild of a dotted map gives the map back exactly when its keys are
      prefix-free and none starts with a dot. */
  lemma FlattenRebuild(pairs: seq<FlatPair>)
    requires DistinctKeys(pairs)
    ensures SameMap(Flatten(Rebuild(pairs)), pairs) <==> PrefixFree(pairs) && NoKeyStartsWithDot(pairs)
  {
    if PrefixFree(pairs) && NoKeyStartsWithDot(pairs) {
      forall key ensures Get(Flatten(Rebuild(pairs)), key) == Get(pairs, key) {
        RoundTripAt(pairs, key);
      }
    }
    if SameMap(Flatten(Rebuild(pairs)), pairs) {
      RoundTripNeeds(pairs);
    }
  }

  lemma RoundTripAt(pairs: seq<FlatPair>, key: string)
    requires DistinctKeys(pairs) && PrefixFree(pairs) && NoKeyStartsWithDot(pairs)
    ensures Get(Flatten(Rebuild(pairs)), key) == Get(pairs, key)
  {
    var got := Get(Flatten(Rebuild(pairs)), key);
    FlattenedFrom(pairs, key);
    GetIn(pairs, key);
    if got.Some? {
      var m :| 0 <= m < |pairs| && KeyFrom("", Split(pairs[m].key)) == key && pairs[m].value == got.value
               && Lookup(Rebuild(pairs), Split(pairs[m].key)) == got;
      KeyOfSplit(pairs[m].key);
      assert pairs[m] in pairs;
    }
    if Get(pairs, key).Some? {
      var i :| 0 <= i < |pairs| && pairs[i] == Pair(key, Get(pairs, key).value);
      KeyOfSplit(key);
      LookupSetAll([], pairs, Split(key));
    }
  }

  lemma RoundTripNeeds(pairs: seq<FlatPair>)
    requires DistinctKeys(pairs) && SameMap(Flatten(Rebuild(pairs)), pairs)
    ensures PrefixFree(pairs) && NoKeyStartsWithDot(pairs)
  {
    var flat := Flatten(Rebuild(pairs));
    forall i | 0 <= i < |pairs|
      ensures !("." <= pairs[i].key)
    {
      var key := pairs[i].key;
      GetIn(pairs, key);
      assert pairs[i] in pairs;
      assert Get(flat, key) == Get(pairs, key);
      FlattenedFrom(pairs, key);
    }
    forall i | 0 <= i < |pairs| ensures Lookup(Rebuild(pairs), Split(pairs[i].key)).Some? {
      var key := pairs[i].key;
      GetIn(pairs, key);
      assert pairs[i] in pairs;
      assert Get(flat, key) == Get(pairs, key);
      FlattenedFrom(pairs, key);
      var m :| 0 <= m < |pairs| && KeyFrom("", Split(pairs[m].key)) == key && Lookup(Rebuild(pairs), Split(pairs[m].key)).Some?;
      KeyOfSplit(pairs[m].key);
      assert m == i;
    }
    forall i, j | 0 <= i < |pairs| && 0 <= j < |pairs| && i != j ensures !(Split(pairs[i].key) <= Split(pairs[j].key)) {
      SplitJoin(pairs[i].key);
      SplitJoin(pairs[j].key);
      assert pairs[i].key != pairs[j].key;
      var a, b := Split(pairs[i].key), Split(pairs[j].key);
      assert a != b;
      assert Lookup(Rebuild(pairs), a).Some? && Lookup(Rebuild(pairs), b).Some?;
      if a <= b {
        assert a < b;
        LongerPathMissing(Rebuild(pairs), a, b);
      }
    }
  }

  // ----- second round trip: a tree, flattened and rebuilt -----

  /** Distinct, non-empty, dot-free names and no empty sub-objects. */
  ghost predicate Proper(entries: seq<Entry>) {
    entries == [] ||
    (&& Get(entries[1..], entries[0].key).None?
     && ProperName(entries[0].key)
     && Proper(entries[1..])
     && (entries[0].value.Node? ==> entries[0].value.entries != [] && Proper(entries[0].value.entries)))
  }

  predicate ProperName(name: string) {
    name != "" && DotFree(name)
  }

  ghost predicate ProperPaths(paths: seq<Path>) {
    && (forall p | p in paths :: p.parts != [] && forall part | part in p.parts :: ProperName(part))
    && (forall i, j | 0 <= i < j < |paths| :: paths[i].parts != paths[j].parts)
  }

  function SetPaths(root: seq<Entry>, paths: seq<Path>): seq<Entry>
    requires forall p | p in paths :: p.parts != []
    decreases |paths|
  {
    if paths == [] then root else SetPaths(SetPath(root, paths[0].parts, paths[0].text), paths[1..])
  }

  function Keyed(paths: seq<Path>): seq<FlatPair> {
    if paths == [] then [] else [KeyedPath(paths[0])] + Keyed(paths[1..])
  }

  lemma {:induction false} ProperWellFormed(entries: seq<Entry>)
    requires Proper(entries)
    ensures WellFormed(entries)
  {
    if entries == [] {
    } else {
      ProperWellFormed(entries[1..]);
      if entries[0].value.Node? {
        ProperWellFormed(entries[0].value.entries);
      }
    }
  }

  lemma {:induction false} UnderAt(name: string, paths: seq<Path>)
    ensures |Under(name, paths)| == |paths|
    ensures forall i | 0 <= i < |paths| :: Under(name, paths)[i] == Path([name] + paths[i].parts, paths[i].text)
  {
    if paths == [] {
    } else {
      UnderAt(name, paths[1..]);
    }
  }

  lemma {:induction false} FirstPartsFound(entries: seq<Entry>, p: Path)
    requires WellFormed(entries) && p in Paths(entries)
    ensures p.parts != [] && Get(entries, p.parts[0]).Some?
  {
    PathsAreLookups(entries, p);
  }

  lemma {:induction false} PathsAreProper(entries: seq<Entry>)
    requires Proper(entries)
    ensures ProperPaths(Paths(entries)) && (entries != [] ==> Paths(entries) != [])
  {
    if entries == [] {
    } else {
      var e, rest := entries[0], Paths(entries[1..]);
      PathsAreProper(entries[1..]);
      ProperWellFormed(entries[1..]);
      forall p | p in rest ensures p.parts != [] && p.parts[0] != e.key {
        FirstPartsFound(entries[1..], p);
      }
      match e.value
      case Leaf(text) =>
        OnePathProper(e.key, text);
        ProperConcat(e.key, [Path([e.key], text)], rest);
      case Node(sub) =>
        PathsAreProper(sub);
        UnderProper(e.key, Paths(sub));
        ProperConcat(e.key, Under(e.key, Paths(sub)), rest);
    }
  }

  lemma OnePathProper(name: string, text: string)
    requires ProperName(name)
    ensures ProperPaths([Path([name], text)])
  {
  }

  lemma UnderProper(name: string, paths: seq<Path>)
    requires ProperPaths(paths) && ProperName(name)
    ensures ProperPaths(Under(name, paths)) && |Under(name, paths)| == |paths|
    ensures forall p | p in Under(name, paths) :: p.parts != [] && p.parts[0] == name
  {
    var under := Under(name, paths);
    UnderAt(name, paths);
    forall p | p in under ensures p.parts != [] && p.parts[0] == name && forall part | part in p.parts :: ProperName(part) {
      var i :| 0 <= i < |under| && under[i] == p;
      assert paths[i] in paths;
    }
    forall i, j | 0 <= i < j < |under| ensures under[i].parts != under[j].parts {
      assert paths[i].parts == under[i].parts[1..] && paths[j].parts == under[j].parts[1..];
    }
  }

  /** Paths that start with a name and paths that do not are proper together. */
  lemma ProperConcat(name: string, a: seq<Path>, b: seq<Path>)
    requires ProperPaths(a) && ProperPaths(b)
    requires forall p | p in a :: p.parts[0] == name
    requires forall p | p in b :: p.parts[0] != name
    ensures ProperPaths(a + b)
  {
    var all := a + b;
    forall i, j | 0 <= i < j < |all| ensures all[i].parts != all[j].parts {
      if i < |a| && j >= |a| {
        assert a[i] in a && b[j - |a|] in b;
      }
    }
  }

  lemma ProperKey(p: Path)
    requires p.parts != [] && forall part | part in p.parts :: ProperName(part)
    ensures Split(KeyFrom("", p.parts)) == p.parts && !("." <= KeyFrom("", p.parts))
  {
    assert p.parts[0] in p.parts;
    KeyOfParts(p.parts);
    JoinSplit(p.parts);
    NoLeadingDot(p.parts);
  }

  lemma TailProper(paths: seq<Path>)
    requires ProperPaths(paths) && paths != []
    ensures ProperPaths(paths[1..])
  {
  }

  lemma OtherKey(paths: seq<Path>, q: Path)
    requires ProperPaths(paths) && paths != [] && q in paths[1..]
    ensures KeyFrom("", q.parts) != KeyFrom("", paths[0].parts) && q in paths
  {
    ProperKey(paths[0]);
    ProperKey(q);
  }

  ghost predicate AllNew(out: seq<FlatPair>, paths: seq<Path>) {
    forall p | p in paths :: Get(out, KeyFrom("", p.parts)).None?
  }

  lemma RestNew(out: seq<FlatPair>, paths: seq<Path>)
    requires ProperPaths(paths) && paths != [] && AllNew(out, paths)
    ensures AllNew(out + [KeyedPath(paths[0])], paths[1..])
  {
    forall q | q in paths[1..] ensures Get(out + [KeyedPath(paths[0])], KeyFrom("", q.parts)).None? {
      OtherKey(paths, q);
      GetAppended(out, KeyedPath(paths[0]), KeyFrom("", q.parts));
    }
  }

  function KeyedPath(p: Path): FlatPair {
    Pair(KeyFrom("", p.parts), p.text)
  }

  lemma InsertFirst(out: seq<FlatPair>, paths: seq<Path>)
    requires paths != [] && Get(out, KeyFrom("", paths[0].parts)).None?
    ensures InsertAll(out, "", paths) == InsertAll(out + [KeyedPath(paths[0])], "", paths[1..])
  {
    SetAppends(out, KeyFrom("", paths[0].parts), paths[0].text);
  }

  lemma KeyedFirst(out: seq<FlatPair>, paths: seq<Path>)
    requires paths != []
    ensures out + [KeyedPath(paths[0])] + Keyed(paths[1..]) == out + Keyed(paths)
  {
  }

  lemma {:induction false} InsertAppends(out: seq<FlatPair>, paths: seq<Path>)
    requires ProperPaths(paths) && AllNew(out, paths)
    ensures InsertAll(out, "", paths) == out + Keyed(paths)
    decreases |paths|
  {
    if paths == [] {
    } else {
      assert paths[0] in paths;
      InsertFirst(out, paths);
      KeyedFirst(out, paths);
      RestNew(out, paths);
      TailProper(paths);
      InsertAppends(out + [KeyedPath(paths[0])], paths[1..]);
    }
  }

  lemma {:induction false} SetAllSetsPaths(root: seq<Entry>, paths: seq<Path>)
    requires ProperPaths(paths)
    ensures SetAll(root, Keyed(paths)) == SetPaths(root, paths)
    decreases |paths|
  {
    if paths == [] {
    } else {
      ProperKey(paths[0]);
      SetAllSetsPaths(SetPath(root, paths[0].parts, paths[0].text), paths[1..]);
    }
  }

  lemma {:induction false} FindLast(entries: seq<Entry>, name: string, value: Value, next: Value)
    requires Get(entries, name).None?
    ensures Get(entries + [Pair(name, value)], name) == Some(value)
    ensures Set(entries + [Pair(name, value)], name, next) == entries + [Pair(name, next)]
  {
    if entries == [] {
      assert entries + [Pair(name, value)] == [Pair(name, value)];
    } else {
      FindLast(entries[1..], name, value, next);
      assert (entries + [Pair(name, value)])[1..] == entries[1..] + [Pair(name, value)];
    }
  }

  lemma {:induction false} SetPathsConcat(root: seq<Entry>, a: seq<Path>, b: seq<Path>)
    requires forall p | p in a + b :: p.parts != []
    ensures (forall p | p in a :: p.parts != []) && (forall p | p in b :: p.parts != [])
    ensures SetPaths(root, a + b) == SetPaths(SetPaths(root, a), b)
    decreases |a|
  {
    assert forall p | p in a || p in b :: p in a + b;
    if a == [] {
      assert a + b == b;
    } else {
      assert (a + b)[1..] == a[1..] + b;
      SetPathsConcat(SetPath(root, a[0].parts, a[0].text), a[1..], b);
    }
  }

  /** Paths under the last entry only grow that entry. */
  lemma {:induction false} GrowLast(entries: seq<Entry>, name: string, sub: seq<Entry>, paths: seq<Path>)
    requires Get(entries, name).None? && forall p | p in paths :: p.parts != []
    ensures forall p | p in Under(name, paths) :: p.parts != []
    ensures SetPaths(entries + [Pair(name, Node(sub))], Under(name, paths)) == entries + [Pair(name, Node(SetPaths(sub, paths)))]
    decreases |paths|
  {
    UnderAt(name, paths);
    if paths == [] {
    } else {
      var parts, text := [name] + paths[0].parts, paths[0].text;
      assert parts[1..] == paths[0].parts;
      FindLast(entries, name, Node(sub), Node(SetPath(sub, paths[0].parts, text)));
      GrowLast(entries, name, SetPath(sub, paths[0].parts, text), paths[1..]);
    }
  }

  lemma AddSubtree(entries: seq<Entry>, name: string, paths: seq<Path>)
    requires Get(entries, name).None? && paths != [] && forall p | p in paths :: p.parts != []
    ensures forall p | p in Under(name, paths) :: p.parts != []
    ensures SetPaths(entries, Under(name, paths)) == entries + [Pair(name, Node(SetPaths([], paths)))]
  {
    UnderAt(name, paths);
    var parts, text := [name] + paths[0].parts, paths[0].text;
    assert parts[1..] == paths[0].parts;
    SetAppends(entries, name, Node(SetPath([], paths[0].parts, text)));
    GrowLast(entries, name, SetPath([], paths[0].parts, text), paths[1..]);
  }

  ghost predicate Apart(before: seq<Entry>, entries: seq<Entry>) {
    forall name :: Get(before, name).None? || Get(entries, name).None?
  }

  lemma ApartAfterOne(before: seq<Entry>, entries: seq<Entry>)
    requires Proper(entries) && entries != [] && Apart(before, entries)
    ensures Apart(before + [entries[0]], entries[1..]) && Get(before, entries[0].key).None?
  {
    assert Get(entries, entries[0].key).Some?;
    forall name ensures Get(before + [entries[0]], name).None? || Get(entries[1..], name).None? {
      GetAppended(before, entries[0], name);
    }
  }

  lemma PathsOfFirst(entries: seq<Entry>)
    requires entries != []
    ensures Paths(entries) == EntryPaths(entries[0]) + Paths(entries[1..])
  {
  }

  lemma {:induction false} SetPathsRebuilds(before: seq<Entry>, entries: seq<Entry>)
    requires Proper(entries) && Apart(before, entries)
    ensures forall p | p in Paths(entries) :: p.parts != []
    ensures SetPaths(before, Paths(entries)) == before + entries
    decreases entries
  {
    PathsAreProper(entries);
    if entries == [] {
    } else {
      var e, rest := entries[0], entries[1..];
      ApartAfterOne(before, entries);
      SetPathsRebuilds(before + [e], rest);
      SetEntry(before, e);
      PathsOfFirst(entries);
      SetPathsConcat(before, EntryPaths(e), Paths(rest));
      assert before + [e] + rest == before + entries;
    }
  }

  function EntryPaths(e: Entry): seq<Path> {
    match e.value
    case Leaf(text) => [Path([e.key], text)]
    case Node(sub) => Under(e.key, Paths(sub))
  }

  lemma SetEntry(before: seq<Entry>, e: Entry)
    requires Get(before, e.key).None?
    requires e.value.Node? ==> e.value.entries != [] && Proper(e.value.entries)
    ensures forall p | p in EntryPaths(e) :: p.parts != []
    ensures SetPaths(before, EntryPaths(e)) == before + [e]
    decreases e
  {
    match e.value
    case Leaf(text) =>
      SetAppends(before, e.key, e.value);
      assert [Path([e.key], text)][1..] == [];
    case Node(sub) =>
      PathsAreProper(sub);
      SetPathsRebuilds([], sub);
      assert [] + sub == sub;
      AddSubtree(before, e.key, Paths(sub));
  }

  lemma {:induction false} KeyedAt(paths: seq<Path>)
    ensures |Keyed(paths)| == |paths|
    ensures forall i | 0 <= i < |paths| :: Keyed(paths)[i] == Pair(KeyFrom("", paths[i].parts), paths[i].text)
  {
    if paths == [] {
    } else {
      KeyedAt(paths[1..]);
    }
  }

  lemma FlattenKeyed(entries: seq<Entry>)
    requires Proper(entries)
    ensures ProperPaths(Paths(entries)) && Flatten(entries) == Keyed(Paths(entries))
  {
    PathsAreProper(entries);
    FlattenInserts(entries, "", []);
    InsertAppends([], Paths(entries));
  }

  lemma PathsPrefixFree(entries: seq<Entry>, p: Path, q: Path)
    requires Proper(entries) && p in Paths(entries) && q in Paths(entries) && p.parts != q.parts
    ensures !(p.parts <= q.parts)
  {
    ProperWellFormed(entries);
    PathsAreLookups(entries, p);
    PathsAreLookups(entries, q);
    if p.parts <= q.parts {
      assert p.parts < q.parts;
      LongerPathMissing(entries, p.parts, q.parts);
    }
  }

  /** The keys of a proper tree's flattened form are distinct, prefix-free and free of a leading dot. */
  lemma FlattenPrefixFree(entries: seq<Entry>)
    requires Proper(entries)
    ensures DistinctKeys(Flatten(entries)) && PrefixFree(Flatten(entries)) && NoKeyStartsWithDot(Flatten(entries))
  {
    var paths, flat := Paths(entries), Flatten(entries);
    FlattenKeyed(entries);
    KeyedAt(paths);
    forall i | 0 <= i < |flat| ensures Split(flat[i].key) == paths[i].parts && !("." <= flat[i].key) {
      assert paths[i] in paths;
      ProperKey(paths[i]);
    }
    forall i, j | 0 <= i < |flat| && 0 <= j < |flat| && i != j ensures !(Split(flat[i].key) <= Split(flat[j].key)) {
      assert paths[i] in paths && paths[j] in paths;
      assert paths[i].parts != paths[j].parts;
      PathsPrefixFree(entries, paths[i], paths[j]);
    }
    assert forall i, j | 0 <= i < |flat| && 0 <= j < |flat| && i != j :: Split(flat[i].key) != Split(flat[j].key);
  }

  /** A proper tree is rebuilt entry for entry, in order, from its flattened form. */
  lemma RebuildFlatten(entries: seq<Entry>)
    requires Proper(entries)
    ensures Rebuild(Flatten(entries)) == entries
  {
    FlattenKeyed(entries);
    SetAllSetsPaths([], Paths(entries));
    SetPathsRebuilds([], entries);
  }
}
