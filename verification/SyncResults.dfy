/** What one locale's sync does, in terms of the files it reads and the settings alone. */
module SyncResults {
  import opened Text
  import opened OrderedMap
  import opened StringOrder
  import opened Placeholders
  import opened TranslationTree
  import opened TranslationBatches
  import opened TranslationMemory
  import opened LocaleSync

  /** The last entry of the memory, in its order, that translates the same text for this locale. */
  ghost predicate Like(tm: Memory, s: Settings, text: string, e: TmEntry) {
    exists i :: LastIndexed(tm, s.locale, s.hashText(text), i) && tm[i].value == e
  }

  ghost predicate AnyLike(tm: Memory, s: Settings, text: string) {
    exists q | q in tm :: s.hashText(text) != "" && HasText(q.value, s.locale, s.hashText(text))
  }

  lemma IndexIsLike(c: Context, text: string)
    requires Loaded(c)
    ensures var found := Get(c.byText, c.settings.hashText(text));
            && (found.Some? <==> AnyLike(c.tm, c.settings, text))
            && (found.Some? ==> Like(c.tm, c.settings, text, found.value))
  {
    IndexFinds(c.tm, c.settings.locale, c.settings.hashText(text));
    IndexLastWins(c.tm, c.settings.locale, c.settings.hashText(text));
    if q :| q in c.tm && c.settings.hashText(text) != "" && HasText(q.value, c.settings.locale, c.settings.hashText(text)) {
      assert Indexed(q.value, c.settings.locale);
    }
  }

  /** What the run found for a key: the memory's entry, whether another entry translates the same text,
      the text of the locale's file, and whether the last run fell back. */
  datatype Found = Found(cached: Option<TmEntry>, like: bool, existing: Option<string>, refresh: bool)

  ghost function FoundFor(c: Context, p: FlatPair): Found {
    Found(Get(c.tm, c.settings.cacheKey(p.key, c.settings.hashText(p.value))), AnyLike(c.tm, c.settings, p.value),
          Get(c.existing, p.key), p.key in c.previousFallback)
  }

  /** Nothing serves the key. */
  predicate Unserved(f: Found, provider: bool) {
    !f.like && ((provider && f.refresh) || (f.cached.None? && f.existing.None?))
  }

  /** The text is copied from another key with the same source text. */
  predicate Copied(f: Found, provider: bool) {
    f.like && ((provider && f.refresh) || (f.cached.None? && (f.refresh || f.existing.None?)))
  }

  lemma ChoiceTable(c: Context, p: FlatPair)
    requires Loaded(c)
    ensures var f, choice, provider := FoundFor(c, p), ChoiceFor(c, p), c.settings.hasProvider;
            && (choice.Ask? <==> Unserved(f, provider))
            && (choice.Copy? <==> Copied(f, provider))
            && (choice.Copy? ==> Like(c.tm, c.settings, p.value, choice.entry))
            && (choice.Reuse? ==> f.cached.Some? && choice.text == f.cached.value.translated && !(provider && f.refresh))
            && (choice.Keep? ==> f.cached.None? && f.existing == Some(choice.text) && !(provider && f.refresh))
  {
    IndexIsLike(c, p.value);
  }

  // ----- what is asked -----

  ghost predicate Increasing(order: seq<nat>) {
    forall j, k | 0 <= j < k < |order| :: order[j] < order[k]
  }

  lemma AppendIncreasing(order: seq<nat>, n: nat)
    requires Increasing(order) && forall i | i in order :: i < n
    ensures Increasing(order + [n])
  {
    assert forall k | 0 <= k < |order| :: order[k] in order;
  }

  /** The positions of the keys nothing serves, among the first `n`. */
  ghost function UnservedKeys(c: Context, source: seq<FlatPair>, n: nat): seq<nat>
    requires n <= |source|
  {
    if n == 0 then []
    else UnservedKeys(c, source, n - 1) + if Unserved(FoundFor(c, source[n - 1]), c.settings.hasProvider) then [n - 1] else []
  }

  lemma {:induction false} UnservedExactly(c: Context, source: seq<FlatPair>, n: nat)
    requires n <= |source|
    ensures Increasing(UnservedKeys(c, source, n))
    ensures forall i: nat :: i in UnservedKeys(c, source, n) <==> i < n && Unserved(FoundFor(c, source[i]), c.settings.hasProvider)
  {
    if n == 0 {
    } else {
      UnservedExactly(c, source, n - 1);
      AppendIncreasing(UnservedKeys(c, source, n - 1), n - 1);
    }
  }

  /** Item `k` is that of source key `order[k]`. */
  ghost predicate ItemsOf(s: Settings, source: seq<FlatPair>, order: seq<nat>, items: seq<Item>) {
    && |items| == |order|
    && forall k | 0 <= k < |order| ::
         && order[k] < |source|
         && var p := source[order[k]];
            items[k] == Item(s.cacheKey(p.key, s.hashText(p.value)), p.key, p.value, s.hashText(p.value))
  }

  lemma ItemsOfMore(s: Settings, init: seq<FlatPair>, source: seq<FlatPair>, order: seq<nat>, items: seq<Item>)
    requires ItemsOf(s, init, order, items) && init <= source
    ensures ItemsOf(s, source, order, items)
  {
  }

  lemma {:induction false} UnservedInInit(c: Context, source: seq<FlatPair>, n: nat)
    requires n < |source|
    ensures UnservedKeys(c, source[..|source| - 1], n) == UnservedKeys(c, source, n)
  {
    if n > 0 {
      UnservedInInit(c, source, n - 1);
    }
  }

  lemma {:induction false} AskedExactly(c: Context, source: seq<FlatPair>)
    requires Loaded(c)
    ensures ItemsOf(c.settings, source, UnservedKeys(c, source, |source|), Asked(c, source))
  {
    if source == [] {
    } else {
      var n := |source| - 1;
      AskedExactly(c, source[..n]);
      UnservedInInit(c, source, n);
      ItemsOfMore(c.settings, source[..n], source, UnservedKeys(c, source, n), Asked(c, source[..n]));
      ChoiceTable(c, source[n]);
    }
  }

  /** The pending items are those of the keys nothing serves, each with its own key, text, cache key and hash,
      all of them, in the order of the source. */
  lemma PendingExactly(c: Context, source: seq<FlatPair>) returns (order: seq<nat>)
    requires Loaded(c) && DistinctKeys(source)
    ensures Increasing(order)
    ensures forall i: nat :: i in order <==> i < |source| && Unserved(FoundFor(c, source[i]), c.settings.hasProvider)
    ensures ItemsOf(c.settings, source, order, Ladder(c, source).pending)
  {
    order := UnservedKeys(c, source, |source|);
    LadderDecides(c, source);
    UnservedExactly(c, source, |source|);
    AskedExactly(c, source);
  }

  /** A key that is in neither the memory nor the file is asked about, unless its text is known under another key. */
  lemma NewKeyIsAsked(c: Context, source: seq<FlatPair>, p: FlatPair)
    requires Loaded(c) && DistinctKeys(source) && p in source
    requires Get(c.existing, p.key).None? && Get(c.tm, c.settings.cacheKey(p.key, c.settings.hashText(p.value))).None?
    requires forall q | q in c.tm :: q.value.tgtLang != c.settings.locale || q.value.textHash != c.settings.hashText(p.value)
    ensures exists item | item in Ladder(c, source).pending :: item.key == p.key && item.text == p.value
  {
    var order := PendingExactly(c, source);
    var i :| 0 <= i < |source| && source[i] == p;
    assert i in order;
    var k :| 0 <= k < |order| && order[k] == i;
    assert Ladder(c, source).pending[k] in Ladder(c, source).pending;
  }

  // ----- what each key ends with -----

  /** What the ladder and the translator owe a key: its text, and whether it counts as a fallback. */
  ghost predicate Serves(c: Context, p: FlatPair, texts: map<string, string>, text: string, fallback: bool) {
    var f, provider := FoundFor(c, p), c.settings.hasProvider;
    && (Copied(f, provider) ==> !fallback && exists e :: Like(c.tm, c.settings, p.value, e) && text == e.translated)
    && (Unserved(f, provider) && provider ==> !fallback && p.key in texts && text == texts[p.key])
    && (Unserved(f, provider) && !provider ==> fallback && text == p.value)
    && (!Copied(f, provider) && !Unserved(f, provider) ==>
          && fallback == f.refresh
          && text == if f.cached.Some? then f.cached.value.translated else if f.existing.Some? then f.existing.value else "")
  }

  lemma SettledServes(c: Context, source: seq<FlatPair>, texts: map<string, string>, now: string, pass: Pass, p: FlatPair)
    requires Loaded(c) && DistinctKeys(source) && p in source && Settled(c, source, texts, now, pass)
    requires c.settings.hasProvider ==> Covers(texts, Asked(c, source))
    ensures Get(pass.next, p.key).Some? && Serves(c, p, texts, Get(pass.next, p.key).value, p.key in pass.fallback)
  {
    ChoiceTable(c, p);
    AskedMeans(c, source);
    assert KeySettled(c, p, texts, now, pass);
    if ChoiceFor(c, p).Ask? {
      assert ItemFor(c, p) in Asked(c, source);
    }
  }

  // ----- what the memory keeps -----

  /** The entry of a copied text takes the key's own identity, one just translated names the run that made it, and
      any other is what it was. */
  ghost predicate Keeps(c: Context, p: FlatPair, texts: map<string, string>, now: string, entry: Option<TmEntry>) {
    var s, f := c.settings, FoundFor(c, p);
    var hash := s.hashText(p.value);
    var key := s.cacheKey(p.key, hash);
    && (Copied(f, s.hasProvider) ==>
          exists e ::
            && Like(c.tm, s, p.value, e)
            && entry == Some(TmEntry(key, e.model, e.provider, p.key, s.sourcePath, e.srcLang, e.text, e.textHash, e.tgtLang, e.translated, e.updatedAt)))
    && (Unserved(f, s.hasProvider) && s.hasProvider ==>
          && p.key in texts
          && entry == Some(TmEntry(key, s.model, s.provider, p.key, s.sourcePath, "en", p.value, hash, s.locale, texts[p.key], now)))
    && (!Copied(f, s.hasProvider) && !(Unserved(f, s.hasProvider) && s.hasProvider) ==> entry == f.cached)
  }

  lemma SettledKeeps(c: Context, source: seq<FlatPair>, texts: map<string, string>, now: string, pass: Pass, p: FlatPair)
    requires Loaded(c) && DistinctKeys(source) && p in source && Settled(c, source, texts, now, pass)
    requires c.settings.hasProvider ==> Covers(texts, Asked(c, source))
    ensures Keeps(c, p, texts, now, Get(pass.tm, c.settings.cacheKey(p.key, c.settings.hashText(p.value))))
  {
    ChoiceTable(c, p);
    AskedMeans(c, source);
    assert KeySettled(c, p, texts, now, pass);
    if ChoiceFor(c, p).Ask? {
      assert ItemFor(c, p) in Asked(c, source);
    }
  }

  ghost predicate Untouched(c: Context, source: seq<FlatPair>, key: string) {
    forall p | p in source :: c.settings.cacheKey(p.key, c.settings.hashText(p.value)) != key
  }

  lemma {:induction false} LadderUntouched(c: Context, source: seq<FlatPair>, key: string)
    requires Untouched(c, source, key)
    ensures Get(Ladder(c, source).tm, key) == Get(c.tm, key)
  {
    if source == [] {
    } else {
      var init, p := source[..|source| - 1], source[|source| - 1];
      assert p in source && forall q | q in init :: q in source;
      LadderUntouched(c, init, key);
      var before := Ladder(c, init);
      var choice := ChooseWith(c, before.tm, p);
      if choice.Copy? {
        GetSet(before.tm, SegmentKey(c, p), CopyFor(c, p, choice.entry), key);
      }
    }
  }

  /** The memory of any text that is not in the source stays as it is. */
  lemma OthersUntouched(c: Context, source: seq<FlatPair>, texts: map<string, string>, force: bool, now: string, key: string)
    requires Loaded(c) && DistinctKeys(source) && Untouched(c, source, key)
    requires c.settings.hasProvider ==> Covers(texts, Asked(c, source))
    ensures Get(Settle(c, source, texts, force, now).tm, key) == Get(c.tm, key)
  {
    var asked := Ladder(c, source);
    LadderDecides(c, source);
    AskedMeans(c, source);
    LadderUntouched(c, source, key);
    if c.settings.hasProvider {
      ApplyAllMemory(c.settings, asked, asked.pending, texts, now, key);
    }
    var applied := if c.settings.hasProvider then ApplyAll(c.settings, asked, asked.pending, texts, now) else asked;
    FillKeepsMemory(c, applied, asked.pending, force);
  }

  // ----- what a run ends with -----

  lemma SyncSettles(files: Files, settings: Settings, source: Source, texts: map<string, string>, force: bool, now: string)
    requires InjectiveKeys(settings)
    requires settings.hasProvider ==> Covers(texts, PendingItems(files, settings, source))
    ensures var flat, c := Flatten(source.tree), LoadContext(files, settings);
            && Loaded(c) && DistinctKeys(flat) && PendingItems(files, settings, source) == Asked(c, flat)
            && Settled(c, flat, texts, now, Settle(c, flat, texts, force, now))
  {
    var flat, c := Flatten(source.tree), LoadContext(files, settings);
    FlatKeysDistinct(source);
    LoadKeyed(Load(files.tm, []));
    LadderDecides(c, flat);
    RunSettles(c, flat, texts, force, now);
  }

  /** Key `i` has its text in its place, and is among the fallbacks or not, as it is owed. */
  ghost predicate ServesAt(c: Context, source: seq<FlatPair>, texts: map<string, string>, pairs: seq<FlatPair>, fallbackKeys: seq<string>, i: nat)
    requires i < |source|
  {
    && |pairs| == |source| && pairs[i].key == source[i].key
    && Serves(c, source[i], texts, pairs[i].value, source[i].key in fallbackKeys)
  }

  lemma RunServes(files: Files, settings: Settings, source: Source, texts: map<string, string>, force: bool, now: string, i: nat)
    requires InjectiveKeys(settings) && i < |Flatten(source.tree)|
    requires settings.hasProvider ==> Covers(texts, PendingItems(files, settings, source))
    ensures var flat, c := Flatten(source.tree), LoadContext(files, settings);
            var pass := Settle(c, flat, texts, force, now);
            ServesAt(c, flat, texts, NextPairs(flat, pass.next), SortKeys(pass.fallback), i)
  {
    var flat, c := Flatten(source.tree), LoadContext(files, settings);
    var pass := Settle(c, flat, texts, force, now);
    SyncSettles(files, settings, source, texts, force, now);
    SettledServes(c, flat, texts, now, pass, flat[i]);
    SortKeysAscending(pass.fallback);
    NextPairsAt(flat, pass.next);
  }

  lemma SyncReports(files: Files, settings: Settings, source: Source, options: Options, texts: map<string, string>, now: string)
    requires Sync(files, settings, source, options, texts, now).Done?
    ensures var flat := Flatten(source.tree);
            var pass := Settle(LoadContext(files, settings), flat, texts, options.force, now);
            var out := Sync(files, settings, source, options, texts, now);
            out.texts == NextPairs(flat, pass.next) && out.fallbackKeys == SortKeys(pass.fallback)
  {
  }

  /** The run ends with one text for each key of the source, in the order of the source, and each key is
      served by what the files hold for it. */
  lemma SyncServes(files: Files, settings: Settings, source: Source, options: Options, texts: map<string, string>, now: string, i: nat)
    requires InjectiveKeys(settings) && i < |Flatten(source.tree)|
    requires settings.hasProvider ==> Covers(texts, PendingItems(files, settings, source))
    requires Sync(files, settings, source, options, texts, now).Done?
    ensures var out := Sync(files, settings, source, options, texts, now);
            ServesAt(LoadContext(files, settings), Flatten(source.tree), texts, out.texts, out.fallbackKeys, i)
  {
    SyncReports(files, settings, source, options, texts, now);
    RunServes(files, settings, source, texts, options.force, now, i);
  }

  /** The fallback keys are sorted keys of the source. */
  lemma FallbacksFromSource(files: Files, settings: Settings, source: Source, options: Options, texts: map<string, string>, now: string, key: string)
    requires InjectiveKeys(settings)
    requires settings.hasProvider ==> Covers(texts, PendingItems(files, settings, source))
    requires Sync(files, settings, source, options, texts, now).Done?
    ensures var keys := Sync(files, settings, source, options, texts, now).fallbackKeys;
            Ascending(keys) && (key in keys ==> exists p | p in Flatten(source.tree) :: p.key == key)
  {
    var flat, c := Flatten(source.tree), LoadContext(files, settings);
    var pass := Settle(c, flat, texts, options.force, now);
    SyncReports(files, settings, source, options, texts, now);
    SyncSettles(files, settings, source, texts, options.force, now);
    SortKeysAscending(pass.fallback);
    FallbackKeys(c, flat, texts, now, pass);
  }

  /** A missing file holds nothing; the others hold what they are parsed to. */
  lemma ContextLoaded(files: Files, settings: Settings, key: string)
    ensures var c := LoadContext(files, settings);
            && c.settings == settings
            && c.existing == (if files.locale.Present? then Flatten(files.locale.value) else [])
            && c.previousFallback == (if files.meta.Present? then files.meta.value.fallbackKeys else [])
            && (files.tm.Missing? ==> c.tm == [])
            && (files.tm.Present? ==> forall i :: LastLine(files.tm.value, key, i) ==> Get(c.tm, key) == Some(files.tm.value[i]))
            && (files.tm.Present? && Get(c.tm, key).Some? ==> exists i :: LastLine(files.tm.value, key, i))
  {
    if files.tm.Present? {
      LoadLastWins(files.tm.value, key);
    }
  }

  lemma ServesDetermined(c: Context, p: FlatPair, texts: map<string, string>, text: string, fallback: bool, text': string, fallback': bool)
    requires Serves(c, p, texts, text, fallback) && Serves(c, p, texts, text', fallback')
    ensures text == text' && fallback == fallback'
  {
  }

  /** The text a key ends with does not have the placeholders of its source. */
  ghost predicate Breaks(c: Context, p: FlatPair, texts: map<string, string>) {
    exists text, fallback :: Serves(c, p, texts, text, fallback) && !SamePlaceholders(p.value, text)
  }

  /** The placeholder gate stops a run exactly when some key's text breaks its placeholders. */
  lemma GateExactly(files: Files, settings: Settings, source: Source, options: Options, texts: map<string, string>, now: string)
    requires InjectiveKeys(settings)
    requires settings.hasProvider ==> Covers(texts, PendingItems(files, settings, source))
    ensures var out := Sync(files, settings, source, options, texts, now);
            && (out.Done? || out.PlaceholderMismatch?)
            && (out.PlaceholderMismatch? <==> exists p | p in Flatten(source.tree) :: Breaks(LoadContext(files, settings), p, texts))
  {
    var flat, c := Flatten(source.tree), LoadContext(files, settings);
    var pass := Settle(c, flat, texts, options.force, now);
    SyncSettles(files, settings, source, texts, options.force, now);
    GateOpens(flat, pass.next, settings.locale);
    forall p | p in flat ensures Breaks(c, p, texts) <==> !SamePlaceholders(p.value, Translation(pass.next, p.key)) {
      BreaksExactly(c, flat, texts, now, pass, p);
    }
  }

  lemma BreaksExactly(c: Context, source: seq<FlatPair>, texts: map<string, string>, now: string, pass: Pass, p: FlatPair)
    requires Loaded(c) && DistinctKeys(source) && p in source && Settled(c, source, texts, now, pass)
    requires c.settings.hasProvider ==> Covers(texts, Asked(c, source))
    ensures Breaks(c, p, texts) <==> !SamePlaceholders(p.value, Translation(pass.next, p.key))
  {
    SettledServes(c, source, texts, now, pass, p);
    if text, fallback :| Serves(c, p, texts, text, fallback) && !SamePlaceholders(p.value, text) {
      ServesDetermined(c, p, texts, text, fallback, Get(pass.next, p.key).value, p.key in pass.fallback);
    }
  }

  /** What the memory holds for a key of the source when the run ends. */
  lemma SyncKeeps(files: Files, settings: Settings, source: Source, texts: map<string, string>, force: bool, now: string, p: FlatPair)
    requires InjectiveKeys(settings) && p in Flatten(source.tree)
    requires settings.hasProvider ==> Covers(texts, PendingItems(files, settings, source))
    ensures var c := LoadContext(files, settings);
            Keeps(c, p, texts, now, Get(Settle(c, Flatten(source.tree), texts, force, now).tm, settings.cacheKey(p.key, settings.hashText(p.value))))
  {
    var flat, c := Flatten(source.tree), LoadContext(files, settings);
    SyncSettles(files, settings, source, texts, force, now);
    SettledKeeps(c, flat, texts, now, Settle(c, flat, texts, force, now), p);
  }

  // ----- what is written -----

  function WritingOptions(options: Options): Options {
    options.(checkOnly := false, write := true)
  }

  /** Only a run told to write and not just to check touches the files, and it does so exactly when it would change
      one; a run that may not write reports the same texts, fallbacks and change. */
  lemma WritesOnlyWhenTold(files: Files, settings: Settings, source: Source, options: Options, texts: map<string, string>, now: string)
    requires Sync(files, settings, source, options, texts, now).Done?
    ensures var out := Sync(files, settings, source, options, texts, now);
            var writing := Sync(files, settings, source, WritingOptions(options), texts, now);
            && writing == Done(out.changed, out.fallbackKeys, out.changed, out.texts, writing.files)
            && (out.changed <==> writing.files != files)
            && (out.wrote <==> options.write && !options.checkOnly && out.changed)
            && out.files == if options.write && !options.checkOnly then writing.files else files
  {
  }

  ghost predicate MetaOf(files: Files, s: Settings, source: Source, fallbackKeys: seq<string>, now: string, m: Meta) {
    var before := files.meta;
    && m.fallbackKeys == fallbackKeys && m.locale == s.locale && m.sourceHash == source.hash && m.workflow == 1
    && m.totalKeys == |Flatten(source.tree)| && m.translatedKeys == m.totalKeys - |fallbackKeys|
    && m.provider == (if s.hasProvider then s.provider else if before.Present? then before.value.provider else "")
    && m.model == (if s.hasProvider then s.model else if before.Present? then before.value.model else "")
    && (m.generatedAt == now || (before.Present? && m == before.value))
    && (before.Present? && m.(generatedAt := before.value.generatedAt) == before.value ==> m == before.value)
  }

  /** The file loads as the memory and lists its entries by cache key; no file is made for an empty memory. */
  ghost predicate Holds(file: File<seq<TmEntry>>, tm: Memory) {
    match file
    case Missing => tm == []
    case Present(lines, _) =>
      && (forall key :: Get(LoadTranslationMemory(lines), key) == Get(tm, key))
      && forall i, j | 0 <= i < j < |lines| :: Less(lines[i].cacheKey, lines[j].cacheKey)
  }

  lemma PairsReadBack(source: seq<FlatPair>, pairs: seq<FlatPair>)
    requires Rebuildable(source) && |pairs| == |source| && forall i | 0 <= i < |source| :: pairs[i].key == source[i].key
    ensures SameMap(Flatten(Rebuild(pairs)), pairs)
  {
    assert Rebuildable(pairs);
    FlattenRebuild(pairs);
  }

  lemma {:induction false} EntriesAt(tm: Memory)
    ensures |Entries(tm)| == |tm| && forall i | 0 <= i < |tm| :: Entries(tm)[i] == tm[i].value
  {
    if tm == [] {
    } else {
      EntriesAt(tm[..|tm| - 1]);
    }
  }

  lemma RenderedOrder(tm: Memory)
    requires OwnKeyed(tm)
    ensures var lines := RenderTranslationMemory(tm);
            |lines| == |SortPairs(tm)| && forall i, j | 0 <= i < j < |lines| :: Less(lines[i].cacheKey, lines[j].cacheKey)
  {
    var sorted := SortPairs(tm);
    SortTmGet(tm, "");
    SortPairsSorted(tm);
    EntriesAt(sorted);
    assert forall i | 0 <= i < |sorted| :: sorted[i] in sorted;
  }

  lemma RenderedHolds(tm: Memory)
    requires OwnKeyed(tm)
    ensures Holds(Present(RenderTranslationMemory(tm), true), tm)
    ensures RenderTranslationMemory(tm) == [] ==> tm == []
  {
    RenderedOrder(tm);
    RenderLoad(tm);
    forall key ensures Get(SortPairs(tm), key) == Get(tm, key) {
      SortTmGet(tm, key);
    }
    assert tm != [] ==> tm[0] in tm;
    SortPairsSorted(tm);
  }

  /** The written locale file reads back as the texts reported, and the glossary is the one there was, or the default. */
  lemma WrittenTexts(files: Files, settings: Settings, source: Source, options: Options, texts: map<string, string>, now: string)
    requires Sync(files, settings, source, options, texts, now).Done? && Sync(files, settings, source, options, texts, now).wrote
    ensures var out := Sync(files, settings, source, options, texts, now);
            && out.files.locale.Present?
            && (Rebuildable(Flatten(source.tree)) ==> SameMap(Flatten(out.files.locale.value), out.texts))
            && out.files.glossary.Present?
            && out.files.glossary.value == (if files.glossary.Present? && files.glossary.value != [] then files.glossary.value else DEFAULT_GLOSSARY)
  {
    var flat := Flatten(source.tree);
    var pass := Settle(LoadContext(files, settings), flat, texts, options.force, now);
    if Rebuildable(flat) {
      NextPairsAt(flat, pass.next);
      PairsReadBack(flat, NextPairs(flat, pass.next));
    }
  }

  /** The written metadata tells of this run; its time is that of an earlier run only if all else is as it was then. */
  lemma WrittenMeta(files: Files, settings: Settings, source: Source, options: Options, texts: map<string, string>, now: string)
    requires Sync(files, settings, source, options, texts, now).Done? && Sync(files, settings, source, options, texts, now).wrote
    ensures var out := Sync(files, settings, source, options, texts, now);
            out.files.meta.Present? && MetaOf(files, settings, source, out.fallbackKeys, now, out.files.meta.value)
  {
  }

  /** The written memory is the one the run ended with. */
  lemma WrittenMemory(files: Files, settings: Settings, source: Source, options: Options, texts: map<string, string>, now: string)
    requires InjectiveKeys(settings)
    requires settings.hasProvider ==> Covers(texts, PendingItems(files, settings, source))
    requires Sync(files, settings, source, options, texts, now).Done? && Sync(files, settings, source, options, texts, now).wrote
    ensures Holds(Sync(files, settings, source, options, texts, now).files.tm,
                  Settle(LoadContext(files, settings), Flatten(source.tree), texts, options.force, now).tm)
  {
    SyncSettles(files, settings, source, texts, options.force, now);
    RenderedHolds(Settle(LoadContext(files, settings), Flatten(source.tree), texts, options.force, now).tm);
  }
}
