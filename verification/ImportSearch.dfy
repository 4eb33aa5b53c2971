/** The post-publish check that the plugin SDK's zod artifact is self-contained: a
    search over the parsed syntax of each file inside a search over the files. */
module ImportSearch {
  import opened Text
  import opened OrderedMap
  import opened Reachability

  // ----- parsed files -----

  /** A property value of a syntax node: a string, another object, or anything else. */
  datatype Value = StringValue(text: string) | Ref(id: nat) | OtherValue

  datatype Object = Record(fields: seq<Pair<Value>>) | Array(elements: seq<Value>)

  type Heap = map<nat, Object>

  datatype Parse = Program(heap: Heap, root: nat) | SyntaxError(message: string)

  function Values(o: Object): seq<Value> {
    match o
    case Record(fields) => FieldValues(fields)
    case Array(elements) => elements
  }

  function FieldValues(fields: seq<Pair<Value>>): seq<Value> {
    if fields == [] then [] else [fields[0].value] + FieldValues(fields[1..])
  }

  ghost predicate WellFormed(heap: Heap) {
    forall id | id in heap :: forall v | v in Values(heap[id]) :: v.Ref? ==> v.id in heap
  }

  function Field(heap: Heap, v: Option<Value>, name: string): Option<Value> {
    if v.Some? && v.value.Ref? && v.value.id in heap && heap[v.value.id].Record?
    then Get<Value>(heap[v.value.id].fields, name) else None
  }

  function ExtractLiteralSpecifier(heap: Heap, v: Option<Value>): Option<string> {
    match Field(heap, v, "value")
    case Some(StringValue(text)) => if Field(heap, v, "type") == Some(StringValue("Literal")) then Some(text) else None
    case _ => None
  }

  /** The argument of a call with exactly one. */
  function OnlyArgument(heap: Heap, v: Option<Value>): Option<Value> {
    match v
    case Some(Ref(id)) => if id in heap && heap[id].Array? && |heap[id].elements| == 1 then Some(heap[id].elements[0]) else None
    case _ => None
  }

  /** The module a node names, if it is an import, an export from, a dynamic import or a require. */
  function NamedModule(heap: Heap, id: nat): Option<string> {
    var node := Some(Ref(id));
    var specifier :=
      match Field(heap, node, "type")
      case Some(StringValue(kind)) =>
        if kind == "ImportDeclaration" || kind == "ExportAllDeclaration" || kind == "ExportNamedDeclaration" || kind == "ImportExpression"
        then ExtractLiteralSpecifier(heap, Field(heap, node, "source"))
        else if kind == "CallExpression" then
          var callee := Field(heap, node, "callee");
          if Field(heap, callee, "type") == Some(StringValue("Identifier")) && Field(heap, callee, "name") == Some(StringValue("require"))
          then ExtractLiteralSpecifier(heap, OnlyArgument(heap, Field(heap, node, "arguments")))
          else None
        else None
      case _ => None;
    if specifier == Some("") then None else specifier
  }

  function Refs(values: seq<Value>): set<nat> {
    set v | v in values && v.Ref? :: v.id
  }

  /** The objects directly inside an object. */
  function Inside(heap: Heap): nat -> set<nat> {
    id => if id in heap then Refs(Values(heap[id])) else {}
  }

  /** The property `name` of the object `v`. */
  ghost predicate Has(heap: Heap, v: Value, name: string, property: Value) {
    v.Ref? && v.id in heap && heap[v.id].Record? && Get(heap[v.id].fields, name) == Some(property)
  }

  ghost predicate HasText(heap: Heap, v: Value, name: string, text: string) {
    Has(heap, v, name, StringValue(text))
  }

  ghost predicate IsLiteral(heap: Heap, v: Value, text: string) {
    HasText(heap, v, "type", "Literal") && HasText(heap, v, "value", text)
  }

  ghost predicate FromSource(heap: Heap, node: Value, text: string) {
    && (HasText(heap, node, "type", "ImportDeclaration") || HasText(heap, node, "type", "ExportAllDeclaration")
        || HasText(heap, node, "type", "ExportNamedDeclaration") || HasText(heap, node, "type", "ImportExpression"))
    && exists source :: Has(heap, node, "source", source) && IsLiteral(heap, source, text)
  }

  ghost predicate Requires(heap: Heap, node: Value, text: string) {
    && HasText(heap, node, "type", "CallExpression")
    && (exists callee :: Has(heap, node, "callee", callee) && HasText(heap, callee, "type", "Identifier") && HasText(heap, callee, "name", "require"))
    && exists arguments, argument ::
         && Has(heap, node, "arguments", arguments) && arguments.Ref? && arguments.id in heap
         && heap[arguments.id] == Array([argument]) && IsLiteral(heap, argument, text)
  }

  /** The node names a module by a literal that is not empty: as the source of an import, of an export or of a
      dynamic import, or as the one argument of a require. */
  ghost predicate NamesHere(heap: Heap, id: nat, specifier: string) {
    specifier != "" && (FromSource(heap, Ref(id), specifier) || Requires(heap, Ref(id), specifier))
  }

  lemma LiteralExactly(heap: Heap, v: Value, text: string)
    ensures ExtractLiteralSpecifier(heap, Some(v)) == Some(text) <==> IsLiteral(heap, v, text)
  {
  }

  lemma SourceExactly(heap: Heap, id: nat, text: string)
    ensures ExtractLiteralSpecifier(heap, Field(heap, Some(Ref(id)), "source")) == Some(text)
            <==> exists source :: Has(heap, Ref(id), "source", source) && IsLiteral(heap, source, text)
  {
    var source := Field(heap, Some(Ref(id)), "source");
    if source.Some? {
      LiteralExactly(heap, source.value, text);
      assert Has(heap, Ref(id), "source", source.value);
    }
  }

  lemma ArgumentExactly(heap: Heap, id: nat, text: string)
    ensures ExtractLiteralSpecifier(heap, OnlyArgument(heap, Field(heap, Some(Ref(id)), "arguments"))) == Some(text)
            <==> exists arguments, argument ::
                   && Has(heap, Ref(id), "arguments", arguments) && arguments.Ref? && arguments.id in heap
                   && heap[arguments.id] == Array([argument]) && IsLiteral(heap, argument, text)
  {
    var arguments := Field(heap, Some(Ref(id)), "arguments");
    var argument := OnlyArgument(heap, arguments);
    if argument.Some? {
      LiteralExactly(heap, argument.value, text);
      assert heap[arguments.value.id].elements == [argument.value];
      assert Has(heap, Ref(id), "arguments", arguments.value);
    }
  }

  lemma NamedModuleExactly(heap: Heap, id: nat)
    ensures forall specifier :: NamedModule(heap, id) == Some(specifier) <==> NamesHere(heap, id, specifier)
  {
    forall specifier ensures NamedModule(heap, id) == Some(specifier) <==> NamesHere(heap, id, specifier) {
      SourceExactly(heap, id, specifier);
      ArgumentExactly(heap, id, specifier);
      var callee := Field(heap, Some(Ref(id)), "callee");
      assert callee.Some? ==> Has(heap, Ref(id), "callee", callee.value);
    }
  }

  /** An object holds its property values, and an array its elements. */
  lemma InsideExactly(heap: Heap, id: nat, child: nat)
    ensures child in Inside(heap)(id) <==>
              && id in heap
              && match heap[id]
                 case Record(fields) => exists f :: f in fields && f.value == Ref(child)
                 case Array(elements) => Ref(child) in elements
  {
    if id in heap {
      assert child in Refs(Values(heap[id])) <==> Ref(child) in Values(heap[id]);
      if heap[id].Record? {
        FieldValuesExactly(heap[id].fields, Ref(child));
      }
    }
  }

  lemma {:induction false} FieldValuesExactly(fields: seq<Pair<Value>>, v: Value)
    ensures v in FieldValues(fields) <==> exists f :: f in fields && f.value == v
  {
    if fields == [] {
    } else {
      FieldValuesExactly(fields[1..], v);
      assert forall f | f in fields :: f == fields[0] || f in fields[1..];
    }
  }

  /** The modules named anywhere in the tree under `root`. */
  ghost predicate Names(heap: Heap, root: nat, specifier: string) {
    exists id :: Reachable(Inside(heap), root, id) && NamesHere(heap, id, specifier)
  }

  // ----- the search through one syntax tree -----

  /** What is pushed for a property value: the elements of an array, or the value itself. */
  function Pushed(heap: Heap, v: Value): seq<Value> {
    if v.Ref? && v.id in heap && heap[v.id].Array? then heap[v.id].elements else [v]
  }

  function AllPushed(heap: Heap, values: seq<Value>): seq<Value> {
    if values == [] then [] else Pushed(heap, values[0]) + AllPushed(heap, values[1..])
  }

  lemma {:induction false} AllPushedRefs(heap: Heap, values: seq<Value>, v: Value)
    ensures v in AllPushed(heap, values) <==> exists w :: w in values && v in Pushed(heap, w)
  {
    if values == [] {
    } else {
      AllPushedRefs(heap, values[1..], v);
      assert forall w | w in values :: w == values[0] || w in values[1..];
    }
  }

  /** The search's bookkeeping: everything seen is inside the tree, and whatever a visited
      object contains is visited or pending, except arrays, whose elements are. */
  ghost predicate Searched(heap: Heap, root: nat, visited: set<nat>, pending: seq<Value>) {
    && (root in visited || Ref(root) in pending)
    && visited <= heap.Keys
    && (forall id | id in visited :: Reachable(Inside(heap), root, id))
    && (forall v | v in pending && v.Ref? :: v.id in heap && Reachable(Inside(heap), root, v.id))
    && (forall id | id in visited :: forall w | w in Values(heap[id]) :: forall v | v in Pushed(heap, w) && v.Ref? :: v.id in visited || v in pending)
  }

  lemma PushKeepsSearched(heap: Heap, root: nat, visited: set<nat>, pending: seq<Value>, id: nat)
    requires WellFormed(heap) && Searched(heap, root, visited, pending + [Ref(id)])
    ensures id in heap && Searched(heap, root, visited + {id}, pending + AllPushed(heap, Values(heap[id])))
  {
    assert Ref(id) in pending + [Ref(id)];
    var values := Values(heap[id]);
    forall v | v in AllPushed(heap, values) && v.Ref? ensures v.id in heap && Reachable(Inside(heap), root, v.id) {
      AllPushedRefs(heap, values, v);
      var w :| w in values && v in Pushed(heap, w);
      assert w.Ref?;
      assert w.id in Inside(heap)(id);
      ReachesNext(Inside(heap), root, id, w.id);
      if v != w {
        assert v.id in Inside(heap)(w.id);
        ReachesNext(Inside(heap), root, w.id, v.id);
      }
    }
    forall x | x in visited + {id} ensures forall w | w in Values(heap[x]) :: forall v | v in Pushed(heap, w) && v.Ref? ::
        v.id in visited + {id} || v in pending + AllPushed(heap, values)
    {
      forall w | w in Values(heap[x]) ensures forall v | v in Pushed(heap, w) && v.Ref? ::
          v.id in visited + {id} || v in pending + AllPushed(heap, values)
      {
        forall v | v in Pushed(heap, w) && v.Ref? ensures v.id in visited + {id} || v in pending + AllPushed(heap, values) {
          if x == id {
            AllPushedRefs(heap, values, v);
          } else {
            assert v.id in visited || v in pending + [Ref(id)];
          }
        }
      }
    }
  }

  /** With nothing pending, every node inside the tree that can name a module was visited. */
  lemma SearchComplete(heap: Heap, root: nat, visited: set<nat>, id: nat)
    requires WellFormed(heap) && Searched(heap, root, visited, [])
    requires Reachable(Inside(heap), root, id) && id in heap && heap[id].Record?
    ensures id in visited
  {
    var spread := set x | x in heap && heap[x].Array? && Refs(heap[x].elements) <= visited;
    var closed := visited + spread;
    forall x | x in closed ensures Inside(heap)(x) <= closed {
      forall y | y in Inside(heap)(x) ensures y in closed {
        assert Ref(y) in Values(heap[x]);
        if x in visited {
          if heap[y].Array? {
            forall z | z in Refs(heap[y].elements) ensures z in visited {
              assert Ref(z) in Pushed(heap, Ref(y));
            }
          } else {
            assert Ref(y) in Pushed(heap, Ref(y));
          }
        }
      }
    }
    ClosedHolds(Inside(heap), closed, root, id);
  }

  method ExtractJavaScriptImportSpecifiers(heap: Heap, root: nat) returns (specifiers: set<string>)
    requires WellFormed(heap) && root in heap
    ensures forall s :: s in specifiers <==> Names(heap, root, s)
  {
    specifiers := {};
    var visited: set<nat> := {};
    var pending: seq<Value> := [Ref(root)];
    ReachesItself(Inside(heap), root);
    while pending != []
      invariant Searched(heap, root, visited, pending)
      invariant forall s :: s in specifiers <==> exists id :: id in visited && NamesHere(heap, id, s)
      decreases heap.Keys - visited, |pending|
    {
      var current, rest := pending[|pending| - 1], pending[..|pending| - 1];
      assert pending == rest + [current];
      pending := rest;
      if current.Ref? && current.id !in visited {
        PushKeepsSearched(heap, root, visited, rest, current.id);
        visited := visited + {current.id};
        var specifier := NamedModule(heap, current.id);
        NamedModuleExactly(heap, current.id);
        if specifier.Some? {
          specifiers := specifiers + {specifier.value};
        }
        pending := rest + AllPushed(heap, Values(heap[current.id]));
      }
    }
    forall s | Names(heap, root, s) ensures s in specifiers {
      var id :| Reachable(Inside(heap), root, id) && NamesHere(heap, id, s);
      SearchComplete(heap, root, visited, id);
    }
  }

  // ----- the search through the files -----

  const MAX_INSTALLED_ROOT_DIST_JS_BYTES := 6 * 1024 * 1024

  datatype FileInfo = FileInfo(isFile: bool, size: nat, parse: Parse)

  /** What exists on disk, and the path functions of the platform. */
  datatype Disk = Disk(
    files: map<string, FileInfo>,
    dirname: string -> string, join: (string, string) -> string, relative: (string, string) -> string, isAbsolute: string -> bool)

  ghost predicate Parsed(disk: Disk) {
    forall path | path in disk.files && disk.files[path].parse.Program? ::
      WellFormed(disk.files[path].parse.heap) && disk.files[path].parse.root in disk.files[path].parse.heap
  }

  function Candidates(disk: Disk, importer: string, specifier: string): seq<string> {
    var candidate := disk.join(disk.dirname(importer), specifier);
    [candidate, candidate + ".js", candidate + ".mjs", candidate + ".cjs",
     disk.join(candidate, "index.js"), disk.join(candidate, "index.mjs"), disk.join(candidate, "index.cjs")]
  }

  /** An existing path strictly below the dist root. */
  predicate Acceptable(disk: Disk, distRoot: string, path: string) {
    var relativePath := disk.relative(distRoot, path);
    relativePath != "" && !StartsWith(relativePath, "..") && !disk.isAbsolute(relativePath) && path in disk.files
  }

  /** The path itself, with an extension, and as a directory with an index file, in this order. */
  ghost predicate Candidate(disk: Disk, importer: string, specifier: string, k: int, path: string) {
    var named := disk.join(disk.dirname(importer), specifier);
    || (k == 0 && path == named)
    || (k == 1 && path == named + ".js") || (k == 2 && path == named + ".mjs") || (k == 3 && path == named + ".cjs")
    || (k == 4 && path == disk.join(named, "index.js")) || (k == 5 && path == disk.join(named, "index.mjs"))
    || (k == 6 && path == disk.join(named, "index.cjs"))
  }

  /** The path exists and its way from the dist root neither is empty, nor starts with two dots, nor is absolute. */
  ghost predicate InDist(disk: Disk, distRoot: string, path: string) {
    var way := disk.relative(distRoot, path);
    path in disk.files && way != "" && !(|way| >= 2 && way[0] == '.' && way[1] == '.') && !disk.isAbsolute(way)
  }

  lemma CandidatesExactly(disk: Disk, importer: string, specifier: string)
    ensures var paths := Candidates(disk, importer, specifier);
            forall k, path :: Candidate(disk, importer, specifier, k, path) <==> 0 <= k < |paths| && path == paths[k]
  {
  }

  lemma AcceptableExactly(disk: Disk, distRoot: string, path: string)
    ensures Acceptable(disk, distRoot, path) <==> InDist(disk, distRoot, path)
  {
    var way := disk.relative(distRoot, path);
    assert |way| >= 2 ==> way[..2] == [way[0], way[1]];
  }

  function FirstAcceptable(disk: Disk, distRoot: string, paths: seq<string>): Option<string> {
    if paths == [] then None
    else if Acceptable(disk, distRoot, paths[0]) then Some(paths[0])
    else FirstAcceptable(disk, distRoot, paths[1..])
  }

  function Resolved(disk: Disk, distRoot: string, importer: string, specifier: string): Option<string> {
    if StartsWith(specifier, ".") then FirstAcceptable(disk, distRoot, Candidates(disk, importer, specifier)) else None
  }

  method ResolveInstalledDistRelativeImport(disk: Disk, distRoot: string, importer: string, specifier: string) returns (path: Option<string>)
    ensures path == Resolved(disk, distRoot, importer, specifier)
    ensures path.Some? ==> specifier != "" && specifier[0] == '.' && exists k ::
              && Candidate(disk, importer, specifier, k, path.value) && InDist(disk, distRoot, path.value)
              && forall j, other | j < k && Candidate(disk, importer, specifier, j, other) :: !InDist(disk, distRoot, other)
    ensures path.None? && specifier != "" && specifier[0] == '.' ==>
              forall k, other | Candidate(disk, importer, specifier, k, other) :: !InDist(disk, distRoot, other)
  {
    if !StartsWith(specifier, ".") {
      return None;
    }
    var candidates := Candidates(disk, importer, specifier);
    CandidatesExactly(disk, importer, specifier);
    for i := 0 to |candidates|
      invariant FirstAcceptable(disk, distRoot, candidates[i..]) == FirstAcceptable(disk, distRoot, candidates)
      invariant forall k | 0 <= k < i :: !InDist(disk, distRoot, candidates[k])
    {
      AcceptableExactly(disk, distRoot, candidates[i]);
      assert candidates[i..][1..] == candidates[i + 1..];
      if Acceptable(disk, distRoot, candidates[i]) {
        assert Candidate(disk, importer, specifier, i, candidates[i]);
        return Some(candidates[i]);
      }
    }
    return None;
  }

  predicate NamesZod(specifier: string) {
    specifier == "zod" || StartsWith(specifier, "zod/")
  }

  lemma ZodExactly(specifier: string)
    ensures NamesZod(specifier) <==> specifier == "zod" || exists rest :: specifier == "zod/" + rest
  {
    if NamesZod(specifier) && specifier != "zod" {
      assert specifier == "zod/" + specifier[4..];
    }
  }

  /** Every module a file names, anywhere in its syntax. */
  ghost predicate FileNames(disk: Disk, path: string, specifier: string) {
    path in disk.files && disk.files[path].parse.Program?
    && Names(disk.files[path].parse.heap, disk.files[path].parse.root, specifier)
  }

  ghost predicate ImportsFile(disk: Disk, distRoot: string, path: string, target: string) {
    target in disk.files && target != ""
    && exists specifier :: FileNames(disk, path, specifier) && Resolved(disk, distRoot, path, specifier) == Some(target)
  }

  /** The files a file leads to through its resolved relative imports. */
  ghost function Imports(disk: Disk, distRoot: string): string -> set<string> {
    path => set target | target in disk.files && ImportsFile(disk, distRoot, path, target)
  }

  /** A regular file within the size limit that parses and names zod nowhere. */
  ghost predicate SelfContained(disk: Disk, path: string) {
    && path in disk.files && disk.files[path].isFile && disk.files[path].size <= MAX_INSTALLED_ROOT_DIST_JS_BYTES
    && disk.files[path].parse.Program?
    && forall specifier :: FileNames(disk, path, specifier) ==> !NamesZod(specifier)
  }

  datatype Finding = MissingArtifact | InvalidFile(path: string) | Unparsable(path: string, error: string) | ImportsZod(path: string, specifier: string)

  ghost predicate Describes(disk: Disk, entry: string, distRoot: string, finding: Finding) {
    if finding.MissingArtifact? then entry !in disk.files
    else Reachable(Imports(disk, distRoot), entry, finding.path) && DescribesFile(disk, finding.path, finding)
  }

  ghost predicate FilesSearched(disk: Disk, distRoot: string, entry: string, visited: set<string>, pending: seq<string>) {
    && (entry in visited || entry in pending)
    && (forall path | path in visited :: path in disk.files && SelfContained(disk, path))
    && (forall path, target | path in visited && ImportsFile(disk, distRoot, path, target) :: target in visited || target in pending)
    && (forall path | path in pending :: Reachable(Imports(disk, distRoot), entry, path) && (path == entry || path in disk.files))
  }

  ghost predicate LedTo(disk: Disk, distRoot: string, path: string, specifiers: set<string>, target: string) {
    target != "" && exists s :: s in specifiers && Resolved(disk, distRoot, path, s) == Some(target)
  }

  lemma LedToOneMore(disk: Disk, distRoot: string, path: string, specifiers: set<string>, s: string, targets: seq<string>)
    requires forall target :: target in targets <==> LedTo(disk, distRoot, path, specifiers, target)
    ensures var resolved := Resolved(disk, distRoot, path, s);
            var more := if resolved.Some? && resolved.value != "" then targets + [resolved.value] else targets;
            forall target :: target in more <==> LedTo(disk, distRoot, path, specifiers + {s}, target)
  {
    var resolved := Resolved(disk, distRoot, path, s);
    var more := if resolved.Some? && resolved.value != "" then targets + [resolved.value] else targets;
    forall target ensures target in more <==> LedTo(disk, distRoot, path, specifiers + {s}, target) {
      if target in targets {
        var t :| t in specifiers && Resolved(disk, distRoot, path, t) == Some(target);
        assert t in specifiers + {s};
      }
      if LedTo(disk, distRoot, path, specifiers + {s}, target) {
        var t :| t in specifiers + {s} && Resolved(disk, distRoot, path, t) == Some(target);
        assert t != s ==> LedTo(disk, distRoot, path, specifiers, target);
      }
    }
  }

  lemma LedToImports(disk: Disk, distRoot: string, path: string, specifiers: set<string>, target: string)
    requires forall s :: s in specifiers <==> FileNames(disk, path, s)
    ensures LedTo(disk, distRoot, path, specifiers, target) <==> ImportsFile(disk, distRoot, path, target)
  {
    if LedTo(disk, distRoot, path, specifiers, target) {
      var s :| s in specifiers && Resolved(disk, distRoot, path, s) == Some(target);
      ResolvedExists(disk, distRoot, Candidates(disk, path, s));
      assert ImportsFile(disk, distRoot, path, target);
    }
  }

  lemma AllLedToImports(disk: Disk, distRoot: string, path: string, specifiers: set<string>)
    requires forall s :: s in specifiers <==> FileNames(disk, path, s)
    ensures forall target :: LedTo(disk, distRoot, path, specifiers, target) <==> ImportsFile(disk, distRoot, path, target)
  {
    forall target ensures LedTo(disk, distRoot, path, specifiers, target) <==> ImportsFile(disk, distRoot, path, target) {
      LedToImports(disk, distRoot, path, specifiers, target);
    }
  }

  /** The files the specifiers of one file lead to; a specifier that names zod ends the check. */
  method CheckSpecifiers(disk: Disk, distRoot: string, path: string, specifiers: set<string>)
    returns (targets: seq<string>, zod: Option<string>)
    ensures zod.Some? ==> zod.value in specifiers && NamesZod(zod.value)
    ensures zod.None? ==> forall s | s in specifiers :: !NamesZod(s)
    ensures zod.None? ==> forall target :: target in targets <==> LedTo(disk, distRoot, path, specifiers, target)
  {
    targets, zod := [], None;
    var rest := specifiers;
    while rest != {}
      invariant rest <= specifiers
      invariant forall s | s in specifiers - rest :: !NamesZod(s)
      invariant forall target :: target in targets <==> LedTo(disk, distRoot, path, specifiers - rest, target)
      decreases rest
    {
      var specifier :| specifier in rest;
      if NamesZod(specifier) {
        return targets, Some(specifier);
      }
      LedToOneMore(disk, distRoot, path, specifiers - rest, specifier, targets);
      assert specifiers - rest + {specifier} == specifiers - (rest - {specifier});
      rest := rest - {specifier};
      var resolved := ResolveInstalledDistRelativeImport(disk, distRoot, path, specifier);
      if resolved.Some? && resolved.value != "" {
        targets := targets + [resolved.value];
      }
    }
    assert specifiers - rest == specifiers;
  }

  lemma {:induction false} ResolvedExists(disk: Disk, distRoot: string, paths: seq<string>)
    ensures FirstAcceptable(disk, distRoot, paths).Some? ==> FirstAcceptable(disk, distRoot, paths).value in disk.files
  {
    if paths == [] {
    } else {
      ResolvedExists(disk, distRoot, paths[1..]);
    }
  }

  /** What is wrong with one file, or the files it imports. */
  ghost predicate DescribesFile(disk: Disk, path: string, finding: Finding) {
    match finding
    case MissingArtifact => false
    case InvalidFile(p) =>
      p == path && path in disk.files && (!disk.files[path].isFile || disk.files[path].size > MAX_INSTALLED_ROOT_DIST_JS_BYTES)
    case Unparsable(p, error) => p == path && path in disk.files && disk.files[path].parse == SyntaxError(error)
    case ImportsZod(p, specifier) => p == path && FileNames(disk, path, specifier) && NamesZod(specifier)
  }

  method CheckFile(disk: Disk, distRoot: string, path: string) returns (finding: Option<Finding>, targets: seq<string>)
    requires Parsed(disk) && path in disk.files
    ensures finding.None? <==> SelfContained(disk, path)
    ensures finding.Some? ==> !finding.value.MissingArtifact? && finding.value.path == path && DescribesFile(disk, path, finding.value)
    ensures finding.None? ==> forall target :: target in targets <==> ImportsFile(disk, distRoot, path, target)
  {
    targets := [];
    var info := disk.files[path];
    if !info.isFile || info.size > MAX_INSTALLED_ROOT_DIST_JS_BYTES {
      return Some(InvalidFile(path)), [];
    }
    if info.parse.SyntaxError? {
      return Some(Unparsable(path, info.parse.message)), [];
    }
    var specifiers := ExtractJavaScriptImportSpecifiers(info.parse.heap, info.parse.root);
    var zod;
    targets, zod := CheckSpecifiers(disk, distRoot, path, specifiers);
    if zod.Some? {
      return Some(ImportsZod(path, zod.value)), [];
    }
    AllLedToImports(disk, distRoot, path, specifiers);
    return None, targets;
  }

  /** Every file reachable from the entry is self-contained. */
  ghost predicate AllSelfContained(disk: Disk, entry: string, distRoot: string) {
    forall path :: Reachable(Imports(disk, distRoot), entry, path) ==> SelfContained(disk, path)
  }

  /** The next file of the search: what is wrong with it, or what it leads to. */
  method VisitFile(disk: Disk, entry: string, distRoot: string, path: string, ghost visited: set<string>, ghost rest: seq<string>)
    returns (finding: Option<Finding>, targets: seq<string>)
    requires Parsed(disk) && entry != "" && FilesSearched(disk, distRoot, entry, visited, rest + [path])
    ensures finding.Some? ==> Describes(disk, entry, distRoot, finding.value) && !AllSelfContained(disk, entry, distRoot)
    ensures finding.None? ==> path in disk.files && FilesSearched(disk, distRoot, entry, visited + {path}, rest + targets)
  {
    NextFile(disk, distRoot, entry, visited, rest, path);
    if path !in disk.files {
      return Some(MissingArtifact), [];
    }
    finding, targets := CheckFile(disk, distRoot, path);
    if finding.None? {
      PushKeepsFilesSearched(disk, distRoot, entry, visited, rest, path, targets);
    }
  }

  /** No finding exactly when every file reachable from the entry is self-contained; any
      finding describes a reachable file. The search ends on cyclic imports. */
  method CollectInstalledPluginSdkZodArtifactErrors(disk: Disk, entry: string, distRoot: string) returns (findings: seq<Finding>)
    requires Parsed(disk) && entry != ""
    ensures findings == [] <==> AllSelfContained(disk, entry, distRoot)
    ensures |findings| <= 1 && forall finding | finding in findings :: Describes(disk, entry, distRoot, finding)
  {
    var visited: set<string> := {};
    var pending := [entry];
    StartSearched(disk, distRoot, entry);
    while pending != []
      invariant FilesSearched(disk, distRoot, entry, visited, pending)
      decreases disk.files.Keys - visited, |pending|
    {
      var path, rest := pending[|pending| - 1], pending[..|pending| - 1];
      assert pending == rest + [path];
      if path == "" || path in visited {
        SkipFile(disk, distRoot, entry, visited, rest, path);
        pending := rest;
        continue;
      }
      var finding, targets := VisitFile(disk, entry, distRoot, path, visited, rest);
      if finding.Some? {
        return [finding.value];
      }
      visited := visited + {path};
      pending := rest + targets;
    }
    AllSearched(disk, distRoot, entry, visited);
    return [];
  }

  lemma StartSearched(disk: Disk, distRoot: string, entry: string)
    ensures FilesSearched(disk, distRoot, entry, {}, [entry])
  {
    ReachesItself(Imports(disk, distRoot), entry);
  }

  lemma SkipFile(disk: Disk, distRoot: string, entry: string, visited: set<string>, rest: seq<string>, path: string)
    requires FilesSearched(disk, distRoot, entry, visited, rest + [path]) && entry != ""
    requires path == "" || path in visited
    ensures FilesSearched(disk, distRoot, entry, visited, rest)
  {
    forall p, target | p in visited && ImportsFile(disk, distRoot, p, target) ensures target in visited || target in rest {
      assert target in visited || target in rest + [path];
    }
  }

  /** The next file is reachable, and so decides the search if something is wrong with it. */
  lemma NextFile(disk: Disk, distRoot: string, entry: string, visited: set<string>, rest: seq<string>, path: string)
    requires FilesSearched(disk, distRoot, entry, visited, rest + [path])
    ensures Reachable(Imports(disk, distRoot), entry, path) && (path == entry || path in disk.files)
    ensures !SelfContained(disk, path) ==> !AllSelfContained(disk, entry, distRoot)
  {
    assert path in rest + [path];
  }

  lemma AllSearched(disk: Disk, distRoot: string, entry: string, visited: set<string>)
    requires FilesSearched(disk, distRoot, entry, visited, [])
    ensures AllSelfContained(disk, entry, distRoot)
  {
    forall path | path in visited ensures Imports(disk, distRoot)(path) <= visited {
      assert forall target :: target in Imports(disk, distRoot)(path) ==> ImportsFile(disk, distRoot, path, target);
    }
    forall path | Reachable(Imports(disk, distRoot), entry, path) ensures SelfContained(disk, path) {
      ClosedHolds(Imports(disk, distRoot), visited, entry, path);
    }
  }

  lemma PushKeepsFilesSearched(disk: Disk, distRoot: string, entry: string, visited: set<string>, pending: seq<string>, path: string, targets: seq<string>)
    requires FilesSearched(disk, distRoot, entry, visited, pending + [path]) && SelfContained(disk, path)
    requires forall target :: target in targets <==> ImportsFile(disk, distRoot, path, target)
    ensures FilesSearched(disk, distRoot, entry, visited + {path}, pending + targets)
  {
    assert path in pending + [path];
    forall target | target in targets ensures Reachable(Imports(disk, distRoot), entry, target) {
      assert target in Imports(disk, distRoot)(path);
      ReachesNext(Imports(disk, distRoot), entry, path, target);
    }
    forall p, target | p in visited + {path} && ImportsFile(disk, distRoot, p, target)
      ensures target in visited + {path} || target in pending + targets
    {
      if p in visited {
        assert target in visited || target in pending + [path];
      }
    }
  }
}
