/** One locale's sync: reuse what the caches and the existing file hold, translate
    or fall back for the rest, check placeholders, and write what changed. */
module LocaleSync {
  import opened Text
  import opened OrderedMap
  import opened StringOrder
  import opened Placeholders
  import opened TranslationTree
  import opened TranslationBatches
  import opened TranslationMemory

  // ----- files and settings -----

  datatype Meta = Meta(
    fallbackKeys: seq<string>, generatedAt: string, locale: string, model: string, provider: string,
    sourceHash: string, totalKeys: int, translatedKeys: int, workflow: int)

  datatype Term = Term(source: string, target: string)

  /** A file by what it is parsed to; `canonical` says its text is what the renderer
      would write for that value, which is what the change check compares. */
  datatype File<T> = Missing | Present(value: T, canonical: bool)

  datatype Files = Files(locale: File<seq<Entry>>, meta: File<Meta>, glossary: File<seq<Term>>, tm: File<seq<TmEntry>>)

  datatype Settings = Settings(
    locale: string, sourcePath: string, provider: string, model: string, hasProvider: bool, authOptional: bool, budget: real,
    hashText: string -> string, cacheKey: (string, string) -> string)

  datatype Options = Options(checkOnly: bool, force: bool, write: bool)

  datatype Source = Source(tree: seq<Entry>, hash: string)

  const CONTROL_UI_I18N_WORKFLOW := 1
  const SOURCE_LOCALE := "en"
  const DEFAULT_GLOSSARY: seq<Term> := [
    Term("OpenClaw", "OpenClaw"), Term("Gateway", "Gateway"), Term("Control UI", "Control UI"), Term("Skills", "Skills"),
    Term("Tailscale", "Tailscale"), Term("WhatsApp", "WhatsApp"), Term("Telegram", "Telegram"), Term("Discord", "Discord"),
    Term("Signal", "Signal"), Term("iMessage", "iMessage")]

  function Load<T>(file: File<T>, default: T): T {
    match file case Present(value, _) => value case Missing => default
  }

  // ----- the decision ladder -----

  /** What a run has loaded before it looks at the first key. */
  datatype Context = Context(
    settings: Settings, tm: Memory, byText: Memory, existing: seq<FlatPair>, previousFallback: seq<string>)

  function LoadContext(files: Files, settings: Settings): Context {
    var tm := LoadTranslationMemory(Load(files.tm, []));
    Context(settings, tm, BuildTranslationMemoryByTextHash(tm, settings.locale),
            Flatten(Load(files.locale, [])),
            match files.meta case Present(meta, _) => meta.fallbackKeys case Missing => [])
  }

  datatype Choice = Reuse(text: string) | Copy(entry: TmEntry) | Keep(text: string) | Ask

  /** A key in good standing is served by the memory, the file, or a text like it, in this order. A
      fallback is never served by the first two while there is a provider. */
  function Choose(cached: Option<TmEntry>, byText: Option<TmEntry>, existing: Option<string>, refresh: bool, allow: bool): (choice: Choice)
    ensures !refresh && cached.Some? ==> choice == Reuse(cached.value.translated)
    ensures !refresh && cached.None? && existing.Some? ==> choice == Keep(existing.value)
    ensures refresh && allow ==> choice == if byText.Some? then Copy(byText.value) else Ask
    ensures choice.Ask? <==> byText.None? && ((allow && refresh) || (cached.None? && existing.None?))
    ensures refresh && cached.None? && byText.Some? ==> choice == Copy(byText.value)
    ensures refresh && !allow && cached.None? && byText.None? && existing.Some? ==> choice == Keep(existing.value)
    ensures !allow && choice.Copy? ==> cached.None? && byText == Some(choice.entry) && (refresh || existing.None?)
    ensures byText.Some? && cached.None? && existing.None? ==> choice == Copy(byText.value)
    ensures refresh && !allow && cached.Some? ==> choice == Reuse(cached.value.translated)
  {
    if cached.Some? && !(allow && refresh) then Reuse(cached.value.translated)
    else if byText.Some? && (refresh || existing.None?) then Copy(byText.value)
    else if existing.Some? && !(allow && refresh) then Keep(existing.value)
    else Ask
  }

  function TextKey(c: Context, key: string, text: string): string {
    c.settings.cacheKey(key, c.settings.hashText(text))
  }

  function SegmentKey(c: Context, p: FlatPair): string {
    TextKey(c, p.key, p.value)
  }

  predicate Refreshes(c: Context, p: FlatPair) {
    p.key in c.previousFallback
  }

  function ChooseWith(c: Context, tm: Memory, p: FlatPair): Choice {
    Choose(Get(tm, SegmentKey(c, p)), Get(c.byText, c.settings.hashText(p.value)), Get(c.existing, p.key),
           Refreshes(c, p), c.settings.hasProvider)
  }

  /** The choice for a key against the memory as it was loaded. */
  function ChoiceFor(c: Context, p: FlatPair): Choice {
    ChooseWith(c, c.tm, p)
  }

  function CopyFor(c: Context, p: FlatPair, e: TmEntry): TmEntry {
    e.(cacheKey := SegmentKey(c, p), segmentId := p.key, sourcePath := c.settings.sourcePath)
  }

  function ItemFor(c: Context, p: FlatPair): Item {
    Item(SegmentKey(c, p), p.key, p.value, c.settings.hashText(p.value))
  }

  /** The loop's variables. */
  datatype Pass = Pass(tm: Memory, next: seq<FlatPair>, pending: seq<Item>, fallback: seq<string>)

  function Rung(c: Context, pass: Pass, p: FlatPair): Pass {
    match ChooseWith(c, pass.tm, p)
    case Reuse(text) => pass.(next := Set(pass.next, p.key, text), fallback := pass.fallback + if Refreshes(c, p) then [p.key] else [])
    case Copy(e) => pass.(next := Set(pass.next, p.key, e.translated), tm := Set(pass.tm, SegmentKey(c, p), CopyFor(c, p, e)))
    case Keep(text) => pass.(next := Set(pass.next, p.key, text), fallback := pass.fallback + if Refreshes(c, p) then [p.key] else [])
    case Ask => pass.(pending := pass.pending + [ItemFor(c, p)])
  }

  function Ladder(c: Context, source: seq<FlatPair>): Pass {
    if source == [] then Pass(c.tm, [], [], [])
    else Rung(c, Ladder(c, source[..|source| - 1]), source[|source| - 1])
  }

  // ----- translations and fallbacks -----

  function TranslatedEntry(s: Settings, item: Item, text: string, now: string): TmEntry {
    TmEntry(item.cacheKey, s.model, s.provider, item.key, s.sourcePath, SOURCE_LOCALE, item.text, item.textHash, s.locale, text, now)
  }

  function ApplyTranslation(s: Settings, pass: Pass, item: Item, texts: map<string, string>, now: string): Pass {
    if item.key in texts && texts[item.key] != "" then
      pass.(next := Set(pass.next, item.key, texts[item.key]),
            tm := Set(pass.tm, item.cacheKey, TranslatedEntry(s, item, texts[item.key], now)))
    else pass
  }

  function ApplyAll(s: Settings, pass: Pass, items: seq<Item>, texts: map<string, string>, now: string): Pass {
    if items == [] then pass
    else ApplyTranslation(s, ApplyAll(s, pass, items[..|items| - 1], texts, now), items[|items| - 1], texts, now)
  }

  function FillOne(c: Context, pass: Pass, item: Item, force: bool): Pass {
    if Get(pass.next, item.key).Some? then pass
    else
      var existing := Get(c.existing, item.key);
      if existing.Some? && !force then
        pass.(next := Set(pass.next, item.key, existing.value),
              fallback := pass.fallback + if item.key in c.previousFallback then [item.key] else [])
      else
        pass.(next := Set(pass.next, item.key, item.text), fallback := pass.fallback + [item.key])
  }

  function FillAll(c: Context, pass: Pass, items: seq<Item>, force: bool): Pass {
    if items == [] then pass
    else FillOne(c, FillAll(c, pass, items[..|items| - 1], force), items[|items| - 1], force)
  }

  /** The run's variables when every key has its text. */
  function Settle(c: Context, source: seq<FlatPair>, texts: map<string, string>, force: bool, now: string): Pass {
    var asked := Ladder(c, source);
    var applied := if c.settings.hasProvider then ApplyAll(c.settings, asked, asked.pending, texts, now) else asked;
    FillAll(c, applied, asked.pending, force)
  }

  // ----- the written files and the outcome -----

  function NextPairs(source: seq<FlatPair>, next: seq<FlatPair>): seq<FlatPair> {
    if source == [] then []
    else NextPairs(source[..|source| - 1], next) + [NextPair(source[|source| - 1], next)]
  }

  function NextPair(p: FlatPair, next: seq<FlatPair>): FlatPair {
    Pair(p.key, match Get<string>(next, p.key) case Some(text) => text case None => p.value)
  }

  /** The timestamp is that of the last run that changed anything else. */
  function NextMeta(files: Files, c: Context, source: Source, size: nat, fallback: seq<string>, now: string): (next: Meta)
    ensures next.generatedAt != now ==> files.meta.Present? && next == files.meta.value
    ensures files.meta.Present? && files.meta.value.(generatedAt := now) == next.(generatedAt := now) ==> next == files.meta.value
  {
    var s := c.settings;
    var sorted := SortKeys(fallback);
    var previous := files.meta;
    var meta := Meta(sorted, now, s.locale,
                     if s.hasProvider then s.model else (match previous case Present(m, _) => m.model case Missing => ""),
                     if s.hasProvider then s.provider else (match previous case Present(m, _) => m.provider case Missing => ""),
                     source.hash, size, size - |sorted|, CONTROL_UI_I18N_WORKFLOW);
    if previous.Present? && previous.value.(generatedAt := now) == meta then meta.(generatedAt := previous.value.generatedAt) else meta
  }

  function Expected(files: Files, c: Context, source: Source, pass: Pass, now: string): Files {
    var flat := Flatten(source.tree);
    Files(Present(Rebuild(NextPairs(flat, pass.next)), true),
          Present(NextMeta(files, c, source, |flat|, pass.fallback, now), true),
          Present(if Load(files.glossary, []) == [] then DEFAULT_GLOSSARY else files.glossary.value, true),
          Present(RenderTranslationMemory(pass.tm), true))
  }

  /** An empty translation memory is rendered as the empty text, which is also how a
      missing file reads; it is then not created. */
  predicate SameTm(current: File<seq<TmEntry>>, expected: File<seq<TmEntry>>) {
    current == expected || (current.Missing? && expected == Present([], true))
  }

  predicate Changed(files: Files, expected: Files) {
    files.locale != expected.locale || files.meta != expected.meta || files.glossary != expected.glossary || !SameTm(files.tm, expected.tm)
  }

  function Written(files: Files, expected: Files): Files {
    if expected.tm == Present([], true) && files.tm.Missing? then expected.(tm := Missing) else expected
  }

  datatype Outcome =
    | Failed(message: string)
    | AuthSkipped
    | PlaceholderMismatch(mismatches: seq<Mismatch>)
    | Done(changed: bool, fallbackKeys: seq<string>, wrote: bool, texts: seq<FlatPair>, files: Files)

  /** What becomes of the files when every key has its text. */
  function Decide(files: Files, c: Context, source: Source, pass: Pass, options: Options, now: string): Outcome {
    var flat := Flatten(source.tree);
    var mismatches := Mismatches(flat, pass.next, c.settings.locale);
    if mismatches != [] then PlaceholderMismatch(mismatches)
    else
      var expected := Expected(files, c, source, pass, now);
      var changed := Changed(files, expected);
      var wrote := !options.checkOnly && options.write && changed;
      Done(changed, expected.meta.value.fallbackKeys, wrote, NextPairs(flat, pass.next), if wrote then Written(files, expected) else files)
  }

  /** The outcome of a run in which the translator, if it was asked, returned `texts`. */
  function Sync(files: Files, settings: Settings, source: Source, options: Options, texts: map<string, string>, now: string): Outcome {
    var c := LoadContext(files, settings);
    Decide(files, c, source, Settle(c, Flatten(source.tree), texts, options.force, now), options, now)
  }

  /** The keys left to the translator or to the English fallback. */
  function PendingItems(files: Files, settings: Settings, source: Source): seq<Item> {
    Ladder(LoadContext(files, settings), Flatten(source.tree)).pending
  }

  /** What the translator guarantees when it returns. */
  ghost predicate Covers(texts: map<string, string>, items: seq<Item>) {
    forall item | item in items :: item.key in texts && Trim(texts[item.key]) != ""
  }

  /** Cache keys are digests over the segment id and the hash of a text: never empty, and different when either differs. */
  ghost predicate InjectiveKeys(s: Settings) {
    && (forall k, text :: s.cacheKey(k, s.hashText(text)) != "")
    && (forall k, text, k', text' :: s.cacheKey(k, s.hashText(text)) == s.cacheKey(k', s.hashText(text'))
                                     ==> k == k' && s.hashText(text) == s.hashText(text'))
  }

  // ----- what one run decides, key by key -----

  /** The text a key ends with. */
  function FinalText(c: Context, p: FlatPair, texts: map<string, string>): string {
    match ChoiceFor(c, p)
    case Reuse(text) => text
    case Copy(e) => e.translated
    case Keep(text) => text
    case Ask => if c.settings.hasProvider && p.key in texts then texts[p.key] else p.value
  }

  /** Whether a key is recorded as a fallback. */
  predicate EndsAsFallback(c: Context, p: FlatPair) {
    match ChoiceFor(c, p)
    case Reuse(_) => Refreshes(c, p)
    case Copy(_) => false
    case Keep(_) => Refreshes(c, p)
    case Ask => !c.settings.hasProvider
  }

  /** What the memory holds for a key in the end. */
  function FinalEntry(c: Context, p: FlatPair, texts: map<string, string>, now: string): Option<TmEntry> {
    match ChoiceFor(c, p)
    case Copy(e) => Some(CopyFor(c, p, e))
    case Ask => if c.settings.hasProvider && p.key in texts then Some(TranslatedEntry(c.settings, ItemFor(c, p), texts[p.key], now))
                else Get(c.tm, SegmentKey(c, p))
    case _ => Get(c.tm, SegmentKey(c, p))
  }

  function Asked(c: Context, source: seq<FlatPair>): seq<Item> {
    if source == [] then []
    else Asked(c, source[..|source| - 1]) + if ChoiceFor(c, source[|source| - 1]).Ask? then [ItemFor(c, source[|source| - 1])] else []
  }

  ghost predicate Loaded(c: Context) {
    && OwnKeyed(c.tm) && InjectiveKeys(c.settings)
    && c.byText == BuildTranslationMemoryByTextHash(c.tm, c.settings.locale)
  }

  ghost predicate Fresh(source: seq<FlatPair>, key: string) {
    forall p | p in source :: p.key != key
  }

  /** After the ladder: every key that is not asked for has its text and memory entry. */
  ghost predicate LadderDone(c: Context, source: seq<FlatPair>, pass: Pass) {
    && OwnKeyed(pass.tm) && pass.pending == Asked(c, source)
    && (forall p | p in source :: RungDone(c, p, pass))
    && (forall key | Fresh(source, key) :: Get(pass.next, key).None? && key !in pass.fallback)
    && (forall k, text | Fresh(source, k) :: Get(pass.tm, TextKey(c, k, text)) == Get(c.tm, TextKey(c, k, text)))
  }

  ghost predicate RungDone(c: Context, p: FlatPair, pass: Pass) {
    && Get(pass.next, p.key) == (if ChoiceFor(c, p).Ask? then None else Some(FinalText(c, p, map[])))
    && (p.key in pass.fallback <==> !ChoiceFor(c, p).Ask? && EndsAsFallback(c, p))
    && Get(pass.tm, SegmentKey(c, p)) == (if ChoiceFor(c, p).Ask? then Get(c.tm, SegmentKey(c, p)) else FinalEntry(c, p, map[], ""))
  }

  lemma ChosenEntryUsable(c: Context, p: FlatPair)
    requires Loaded(c) && ChoiceFor(c, p).Copy?
    ensures Usable(CopyFor(c, p, ChoiceFor(c, p).entry))
  {
    IndexFinds(c.tm, c.settings.locale, c.settings.hashText(p.value));
  }

  lemma RungKeeps(c: Context, init: seq<FlatPair>, p: FlatPair, pass: Pass)
    requires Loaded(c) && LadderDone(c, init, pass) && Fresh(init, p.key)
    ensures LadderDone(c, init + [p], Rung(c, pass, p))
  {
    var after := Rung(c, pass, p);
    assert Get(pass.tm, SegmentKey(c, p)) == Get(c.tm, SegmentKey(c, p));
    var choice := ChoiceFor(c, p);
    if choice.Copy? {
      ChosenEntryUsable(c, p);
      SetKeyed(pass.tm, CopyFor(c, p, choice.entry));
    }
    assert (init + [p])[..|init|] == init;
    forall q | q in init + [p] ensures RungDone(c, q, after) {
      RungFrame(c, pass, p, q.key);
      RungFrameTm(c, pass, p, q.key, q.value);
    }
    forall key | Fresh(init + [p], key) ensures Get(after.next, key).None? && key !in after.fallback {
      RungFrame(c, pass, p, key);
      assert p in init + [p] && forall q | q in init :: q in init + [p];
    }
    forall k, text | Fresh(init + [p], k) ensures Get(after.tm, TextKey(c, k, text)) == Get(c.tm, TextKey(c, k, text)) {
      RungFrameTm(c, pass, p, k, text);
      assert p in init + [p] && forall q | q in init :: q in init + [p];
    }
  }

  lemma RungFrame(c: Context, pass: Pass, p: FlatPair, key: string)
    ensures key != p.key ==> Get(Rung(c, pass, p).next, key) == Get(pass.next, key) && (key in Rung(c, pass, p).fallback <==> key in pass.fallback)
    ensures !ChooseWith(c, pass.tm, p).Ask? ==>
              Get(Rung(c, pass, p).next, p.key) == Some(match ChooseWith(c, pass.tm, p) case Copy(e) => e.translated case Reuse(t) => t case Keep(t) => t)
  {
    match ChooseWith(c, pass.tm, p)
    case Reuse(text) => GetSet(pass.next, p.key, text, key); GetSet(pass.next, p.key, text, p.key);
    case Copy(e) => GetSet(pass.next, p.key, e.translated, key); GetSet(pass.next, p.key, e.translated, p.key);
    case Keep(text) => GetSet(pass.next, p.key, text, key); GetSet(pass.next, p.key, text, p.key);
    case Ask =>
  }

  lemma RungFrameTm(c: Context, pass: Pass, p: FlatPair, k: string, text: string)
    requires InjectiveKeys(c.settings)
    ensures var key := TextKey(c, k, text);
            Get(Rung(c, pass, p).tm, key)
            == match ChooseWith(c, pass.tm, p)
               case Copy(e) => if k == p.key && c.settings.hashText(text) == c.settings.hashText(p.value) then Some(CopyFor(c, p, e)) else Get(pass.tm, key)
               case _ => Get(pass.tm, key)
  {
    var choice := ChooseWith(c, pass.tm, p);
    if choice.Copy? {
      GetSet(pass.tm, SegmentKey(c, p), CopyFor(c, p, choice.entry), TextKey(c, k, text));
    }
  }

  lemma FlatKeysDistinct(source: Source)
    ensures DistinctKeys(Flatten(source.tree))
  {
    FlattenDistinct(source.tree, "", []);
  }

  lemma DistinctLast(source: seq<FlatPair>)
    requires DistinctKeys(source) && source != []
    ensures DistinctKeys(source[..|source| - 1]) && Fresh(source[..|source| - 1], source[|source| - 1].key)
  {
  }

  lemma {:induction false} LadderDecides(c: Context, source: seq<FlatPair>)
    requires Loaded(c) && DistinctKeys(source)
    ensures LadderDone(c, source, Ladder(c, source))
  {
    if source == [] {
    } else {
      var init, p := source[..|source| - 1], source[|source| - 1];
      DistinctLast(source);
      LadderDecides(c, init);
      RungKeeps(c, init, p, Ladder(c, init));
      assert init + [p] == source;
    }
  }

  ghost predicate DistinctItems(items: seq<Item>) {
    forall i, j | 0 <= i < j < |items| :: items[i].key != items[j].key && items[i].cacheKey != items[j].cacheKey
  }

  lemma {:induction false} AskedMeans(c: Context, source: seq<FlatPair>)
    requires InjectiveKeys(c.settings) && DistinctKeys(source)
    ensures DistinctItems(Asked(c, source))
    ensures forall item | item in Asked(c, source) :: exists p | p in source :: ChoiceFor(c, p).Ask? && item == ItemFor(c, p)
    ensures forall p | p in source && ChoiceFor(c, p).Ask? :: ItemFor(c, p) in Asked(c, source)
  {
    if source == [] {
    } else {
      var init, last := source[..|source| - 1], source[|source| - 1];
      AskedMeans(c, init);
      assert source == init + [last];
      LastNotAsked(c, source, Asked(c, init));
    }
  }

  lemma LastNotAsked(c: Context, source: seq<FlatPair>, asked: seq<Item>)
    requires InjectiveKeys(c.settings) && DistinctKeys(source) && source != []
    requires forall item | item in asked :: exists p | p in source[..|source| - 1] :: ChoiceFor(c, p).Ask? && item == ItemFor(c, p)
    ensures var last := source[|source| - 1];
            forall i | 0 <= i < |asked| :: asked[i].key != last.key && asked[i].cacheKey != SegmentKey(c, last)
  {
    var init, last := source[..|source| - 1], source[|source| - 1];
    forall i | 0 <= i < |asked| ensures asked[i].key != last.key && asked[i].cacheKey != SegmentKey(c, last) {
      assert asked[i] in asked;
      var p :| p in init && ChoiceFor(c, p).Ask? && asked[i] == ItemFor(c, p);
      var k :| 0 <= k < |init| && init[k] == p;
      assert source[k] == p;
    }
  }

  ghost predicate AnyKey(items: seq<Item>, key: string) {
    exists item | item in items :: item.key == key
  }

  lemma {:induction false} ApplyAllNext(s: Settings, pass: Pass, items: seq<Item>, texts: map<string, string>, now: string, key: string)
    requires Covers(texts, items)
    ensures var after := ApplyAll(s, pass, items, texts, now);
            && after.fallback == pass.fallback
            && Get(after.next, key) == (if AnyKey(items, key) then Some(texts[key]) else Get(pass.next, key))
  {
    if items == [] {
    } else {
      var init, last := items[..|items| - 1], items[|items| - 1];
      assert items == init + [last] && last in items;
      assert forall item | item in init :: item in items;
      ApplyAllNext(s, pass, init, texts, now, key);
      assert texts[last.key] != "" by {
        assert Trim("") == "";
      }
      GetSet(ApplyAll(s, pass, init, texts, now).next, last.key, texts[last.key], key);
    }
  }

  lemma ApplyOneMemory(s: Settings, pass: Pass, item: Item, texts: map<string, string>, now: string, cacheKey: string)
    requires OwnKeyed(pass.tm) && item.cacheKey != "" && item.key in texts && Trim(texts[item.key]) != ""
    ensures var after := ApplyTranslation(s, pass, item, texts, now);
            && OwnKeyed(after.tm)
            && Get(after.tm, cacheKey) == if cacheKey == item.cacheKey then Some(TranslatedEntry(s, item, texts[item.key], now))
                                          else Get(pass.tm, cacheKey)
  {
    var entry := TranslatedEntry(s, item, texts[item.key], now);
    assert texts[item.key] != "" by {
      assert Trim("") == "";
    }
    GetSet(pass.tm, item.cacheKey, entry, cacheKey);
    SetKeyed(pass.tm, entry);
  }

  lemma DistinctInit(items: seq<Item>)
    requires items != [] && DistinctItems(items)
    ensures var init, last := items[..|items| - 1], items[|items| - 1];
            && DistinctItems(init)
            && (forall item :: item in items <==> item in init || item == last)
            && (forall item | item in init :: item.key != last.key && item.cacheKey != last.cacheKey)
  {
    assert items == items[..|items| - 1] + [items[|items| - 1]];
  }

  lemma {:induction false} ApplyAllMemory(s: Settings, pass: Pass, items: seq<Item>, texts: map<string, string>, now: string, cacheKey: string)
    requires Covers(texts, items) && DistinctItems(items)
    requires OwnKeyed(pass.tm) && forall item | item in items :: item.cacheKey != ""
    ensures var after := ApplyAll(s, pass, items, texts, now);
            && OwnKeyed(after.tm)
            && (forall item | item in items && item.cacheKey == cacheKey ::
                  Get(after.tm, cacheKey) == Some(TranslatedEntry(s, item, texts[item.key], now)))
            && ((forall item | item in items :: item.cacheKey != cacheKey) ==> Get(after.tm, cacheKey) == Get(pass.tm, cacheKey))
  {
    if items == [] {
    } else {
      DistinctInit(items);
      ApplyAllMemory(s, pass, items[..|items| - 1], texts, now, cacheKey);
      ApplyOneMemory(s, ApplyAll(s, pass, items[..|items| - 1], texts, now), items[|items| - 1], texts, now, cacheKey);
    }
  }

  lemma {:induction false} FillKeepsComplete(c: Context, pass: Pass, items: seq<Item>, force: bool)
    requires forall item | item in items :: Get(pass.next, item.key).Some?
    ensures FillAll(c, pass, items, force) == pass
  {
    if items == [] {
    } else {
      FillKeepsComplete(c, pass, items[..|items| - 1], force);
      assert items[|items| - 1] in items;
    }
  }

  lemma {:induction false} FillFallsBack(c: Context, pass: Pass, items: seq<Item>, force: bool, key: string)
    requires DistinctItems(items)
    requires forall item | item in items :: Get(pass.next, item.key).None? && Get(c.existing, item.key).None?
    ensures var after := FillAll(c, pass, items, force);
            && after.tm == pass.tm
            && (forall item | item in items && item.key == key :: Get(after.next, key) == Some(item.text))
            && (!AnyKey(items, key) ==> Get(after.next, key) == Get(pass.next, key))
            && (key in after.fallback <==> key in pass.fallback || AnyKey(items, key))
  {
    if items == [] {
    } else {
      var init, last := items[..|items| - 1], items[|items| - 1];
      DistinctInit(items);
      FillFallsBack(c, pass, init, force, key);
      FillFallsBack(c, pass, init, force, last.key);
      GetSet(FillAll(c, pass, init, force).next, last.key, last.text, key);
    }
  }

  /** How every key of the source ends. */
  ghost predicate Settled(c: Context, source: seq<FlatPair>, texts: map<string, string>, now: string, pass: Pass) {
    && OwnKeyed(pass.tm)
    && (forall p | p in source :: KeySettled(c, p, texts, now, pass))
    && (forall key | Fresh(source, key) :: key !in pass.fallback)
  }

  ghost predicate KeySettled(c: Context, p: FlatPair, texts: map<string, string>, now: string, pass: Pass) {
    && Get(pass.next, p.key) == Some(FinalText(c, p, texts))
    && (p.key in pass.fallback <==> EndsAsFallback(c, p))
    && Get(pass.tm, SegmentKey(c, p)) == FinalEntry(c, p, texts, now)
  }

  lemma AskedOnce(c: Context, source: seq<FlatPair>, p: FlatPair)
    requires InjectiveKeys(c.settings) && DistinctKeys(source) && p in source
    ensures AnyKey(Asked(c, source), p.key) <==> ChoiceFor(c, p).Ask?
    ensures forall item | item in Asked(c, source) :: (item.key == p.key || item.cacheKey == SegmentKey(c, p)) ==> item == ItemFor(c, p)
  {
    AskedMeans(c, source);
    forall item | item in Asked(c, source) && (item.key == p.key || item.cacheKey == SegmentKey(c, p)) ensures item == ItemFor(c, p) && ChoiceFor(c, p).Ask? {
      var q :| q in source && ChoiceFor(c, q).Ask? && item == ItemFor(c, q);
      var i :| 0 <= i < |source| && source[i] == p;
      var j :| 0 <= j < |source| && source[j] == q;
      assert i == j;
    }
    if ChoiceFor(c, p).Ask? {
      assert ItemFor(c, p) in Asked(c, source);
    }
  }

  lemma TranslatedKey(c: Context, source: seq<FlatPair>, texts: map<string, string>, now: string, p: FlatPair)
    requires Loaded(c) && DistinctKeys(source) && p in source && c.settings.hasProvider && Covers(texts, Asked(c, source))
    ensures var asked := Ladder(c, source);
            KeySettled(c, p, texts, now, ApplyAll(c.settings, asked, asked.pending, texts, now))
  {
    var asked, items := Ladder(c, source), Asked(c, source);
    LadderDecides(c, source);
    AskedMeans(c, source);
    AskedOnce(c, source, p);
    ApplyAllNext(c.settings, asked, items, texts, now, p.key);
    ApplyAllMemory(c.settings, asked, items, texts, now, SegmentKey(c, p));
    AppliedSettled(c, p, texts, now, asked, items, ApplyAll(c.settings, asked, items, texts, now));
  }

  /** A key not asked about keeps what its rung gave it; one asked about has the translation. */
  lemma AppliedSettled(c: Context, p: FlatPair, texts: map<string, string>, now: string, asked: Pass, items: seq<Item>, after: Pass)
    requires RungDone(c, p, asked) && c.settings.hasProvider && Covers(texts, items)
    requires ChoiceFor(c, p).Ask? ==> ItemFor(c, p) in items
    requires AnyKey(items, p.key) <==> ChoiceFor(c, p).Ask?
    requires forall item | item in items :: (item.key == p.key || item.cacheKey == SegmentKey(c, p)) ==> item == ItemFor(c, p)
    requires after.fallback == asked.fallback
    requires Get(after.next, p.key) == (if AnyKey(items, p.key) then Some(texts[p.key]) else Get(asked.next, p.key))
    requires forall item | item in items && item.cacheKey == SegmentKey(c, p) ::
               Get(after.tm, SegmentKey(c, p)) == Some(TranslatedEntry(c.settings, item, texts[item.key], now))
    requires (forall item | item in items :: item.cacheKey != SegmentKey(c, p)) ==> Get(after.tm, SegmentKey(c, p)) == Get(asked.tm, SegmentKey(c, p))
    ensures KeySettled(c, p, texts, now, after)
  {
  }

  lemma TranslatedRunSettles(c: Context, source: seq<FlatPair>, texts: map<string, string>, force: bool, now: string)
    requires Loaded(c) && DistinctKeys(source) && c.settings.hasProvider && Covers(texts, Asked(c, source))
    ensures Settled(c, source, texts, now, Settle(c, source, texts, force, now))
  {
    var asked, items := Ladder(c, source), Asked(c, source);
    LadderDecides(c, source);
    AskedMeans(c, source);
    var applied := ApplyAll(c.settings, asked, items, texts, now);
    forall item | item in items ensures Get(applied.next, item.key).Some? {
      ApplyAllNext(c.settings, asked, items, texts, now, item.key);
    }
    FillKeepsComplete(c, applied, items, force);
    ApplyAllMemory(c.settings, asked, items, texts, now, "");
    ApplyAllNext(c.settings, asked, items, texts, now, "");
    forall p | p in source ensures KeySettled(c, p, texts, now, applied) {
      TranslatedKey(c, source, texts, now, p);
    }
  }

  /** Without a provider a key is left over only if the existing file has no text for it,
      so it falls back to English whatever `force` says. */
  lemma LeftOverHasNothing(c: Context, source: seq<FlatPair>)
    requires Loaded(c) && DistinctKeys(source) && !c.settings.hasProvider
    ensures forall item | item in Asked(c, source) :: Get(Ladder(c, source).next, item.key).None? && Get(c.existing, item.key).None?
  {
    LadderDecides(c, source);
    AskedMeans(c, source);
    forall item | item in Asked(c, source) ensures Get(Ladder(c, source).next, item.key).None? && Get(c.existing, item.key).None? {
      var p :| p in source && ChoiceFor(c, p).Ask? && item == ItemFor(c, p);
      assert RungDone(c, p, Ladder(c, source));
    }
  }

  lemma UntranslatedKey(c: Context, source: seq<FlatPair>, force: bool, texts: map<string, string>, now: string, p: FlatPair)
    requires Loaded(c) && DistinctKeys(source) && p in source && !c.settings.hasProvider
    ensures KeySettled(c, p, texts, now, FillAll(c, Ladder(c, source), Ladder(c, source).pending, force))
  {
    var asked, items := Ladder(c, source), Asked(c, source);
    LadderDecides(c, source);
    AskedMeans(c, source);
    LeftOverHasNothing(c, source);
    AskedOnce(c, source, p);
    FillFallsBack(c, asked, items, force, p.key);
    LeftOverSettled(c, p, texts, now, asked, items, FillAll(c, asked, items, force));
  }

  /** A key not asked about keeps what its rung gave it; one asked about falls back to its source text. */
  lemma LeftOverSettled(c: Context, p: FlatPair, texts: map<string, string>, now: string, asked: Pass, items: seq<Item>, after: Pass)
    requires RungDone(c, p, asked) && !c.settings.hasProvider
    requires ChoiceFor(c, p).Ask? ==> ItemFor(c, p) in items
    requires AnyKey(items, p.key) <==> ChoiceFor(c, p).Ask?
    requires after.tm == asked.tm
    requires forall item | item in items && item.key == p.key :: Get(after.next, p.key) == Some(item.text)
    requires !AnyKey(items, p.key) ==> Get(after.next, p.key) == Get(asked.next, p.key)
    requires p.key in after.fallback <==> p.key in asked.fallback || AnyKey(items, p.key)
    ensures KeySettled(c, p, texts, now, after)
  {
  }

  lemma UntranslatedRunSettles(c: Context, source: seq<FlatPair>, texts: map<string, string>, force: bool, now: string)
    requires Loaded(c) && DistinctKeys(source) && !c.settings.hasProvider
    ensures Settled(c, source, texts, now, Settle(c, source, texts, force, now))
  {
    var asked, items := Ladder(c, source), Asked(c, source);
    var filled := FillAll(c, asked, items, force);
    LadderDecides(c, source);
    AskedMeans(c, source);
    LeftOverHasNothing(c, source);
    FillFallsBack(c, asked, items, force, "");
    forall p | p in source ensures KeySettled(c, p, texts, now, filled) {
      UntranslatedKey(c, source, force, texts, now, p);
    }
    forall key | Fresh(source, key) ensures key !in filled.fallback {
      FillFallsBack(c, asked, items, force, key);
      forall item | item in items ensures item.key != key {
        var p :| p in source && ChoiceFor(c, p).Ask? && item == ItemFor(c, p);
      }
    }
  }

  lemma RunSettles(c: Context, source: seq<FlatPair>, texts: map<string, string>, force: bool, now: string)
    requires Loaded(c) && DistinctKeys(source)
    requires c.settings.hasProvider ==> Covers(texts, Asked(c, source))
    ensures Settled(c, source, texts, now, Settle(c, source, texts, force, now))
  {
    if c.settings.hasProvider {
      TranslatedRunSettles(c, source, texts, force, now);
    } else {
      UntranslatedRunSettles(c, source, texts, force, now);
    }
  }

  /** A translation is kept under its own key with the text it translates, and the next run's
      index finds a translation of that text. */
  lemma TranslationsKept(c: Context, source: seq<FlatPair>, texts: map<string, string>, force: bool, now: string, p: FlatPair)
    requires Loaded(c) && DistinctKeys(source) && p in source && ChoiceFor(c, p).Ask?
    requires c.settings.hasProvider && Covers(texts, Asked(c, source)) && c.settings.hashText(p.value) != ""
    ensures var tm := Settle(c, source, texts, force, now).tm;
            var kept := Get(tm, SegmentKey(c, p));
            && kept.Some? && kept.value.cacheKey == SegmentKey(c, p) && kept.value.segmentId == p.key
            && kept.value.text == p.value && kept.value.textHash == c.settings.hashText(p.value)
            && kept.value.tgtLang == c.settings.locale && p.key in texts && kept.value.translated == texts[p.key]
            && Get(BuildTranslationMemoryByTextHash(tm, c.settings.locale), c.settings.hashText(p.value)).Some?
  {
    var pass := Settle(c, source, texts, force, now);
    RunSettles(c, source, texts, force, now);
    AskedMeans(c, source);
    assert ItemFor(c, p) in Asked(c, source);
    assert KeySettled(c, p, texts, now, pass);
    GetIn(pass.tm, SegmentKey(c, p));
    IndexFinds(pass.tm, c.settings.locale, c.settings.hashText(p.value));
  }

  /** The recorded fallback keys are source keys, each once and in order, so the counts in the metadata add up. */
  lemma MetaCounts(files: Files, c: Context, source: Source, texts: map<string, string>, force: bool, now: string)
    requires Loaded(c)
    requires c.settings.hasProvider ==> Covers(texts, Asked(c, Flatten(source.tree)))
    ensures var flat := Flatten(source.tree); var pass := Settle(c, flat, texts, force, now);
            var meta := NextMeta(files, c, source, |flat|, pass.fallback, now);
            && Ascending(meta.fallbackKeys)
            && (forall key :: key in meta.fallbackKeys <==> exists p | p in flat :: p.key == key && EndsAsFallback(c, p))
            && meta.totalKeys == |flat| && 0 <= meta.translatedKeys == meta.totalKeys - |meta.fallbackKeys|
  {
    FlatKeysDistinct(source);
    var flat := Flatten(source.tree);
    var pass := Settle(c, flat, texts, force, now);
    RunSettles(c, flat, texts, force, now);
    SortKeysAscending(pass.fallback);
    FallbackKeys(c, flat, texts, now, pass);
    AtMostSourceKeys(SortKeys(pass.fallback), flat);
  }

  lemma FallbackKeys(c: Context, source: seq<FlatPair>, texts: map<string, string>, now: string, pass: Pass)
    requires Settled(c, source, texts, now, pass)
    ensures forall key :: key in pass.fallback <==> exists p | p in source :: p.key == key && EndsAsFallback(c, p)
  {
    forall key ensures key in pass.fallback <==> exists p | p in source :: p.key == key && EndsAsFallback(c, p) {
      if key in pass.fallback && !Fresh(source, key) {
        var p :| p in source && p.key == key;
        assert KeySettled(c, p, texts, now, pass);
      }
      if p :| p in source && p.key == key && EndsAsFallback(c, p) {
        assert KeySettled(c, p, texts, now, pass);
      }
    }
  }

  lemma AtMostSourceKeys(keys: seq<string>, source: seq<FlatPair>)
    requires Ascending(keys) && forall key | key in keys :: exists p | p in source :: p.key == key
    ensures |keys| <= |source|
  {
    var all := set i | 0 <= i < |source| :: source[i].key;
    KeySetSize(source);
    SeqSetSize(keys);
    forall key | key in keys ensures key in all {
      var p :| p in source && p.key == key;
      var i :| 0 <= i < |source| && source[i] == p;
    }
    assert (set key | key in keys) <= all;
    SubsetSize((set key | key in keys), all);
  }

  lemma SubsetSize(a: set<string>, b: set<string>)
    requires a <= b
    ensures |a| <= |b|
  {
    assert b == a + (b - a);
  }

  lemma {:induction false} KeySetSize(source: seq<FlatPair>)
    ensures |set i | 0 <= i < |source| :: source[i].key| <= |source|
  {
    if source == [] {
    } else {
      var init, last := source[..|source| - 1], source[|source| - 1];
      KeySetSize(init);
      assert forall i | 0 <= i < |init| :: init[i] == source[i];
      assert (set i | 0 <= i < |source| :: source[i].key) == (set i | 0 <= i < |init| :: init[i].key) + {last.key};
    }
  }

  lemma {:induction false} SeqSetSize(keys: seq<string>)
    requires Ascending(keys)
    ensures |set key | key in keys| == |keys|
  {
    if keys == [] {
    } else {
      var init, last := keys[..|keys| - 1], keys[|keys| - 1];
      SeqSetSize(init);
      forall i | 0 <= i < |init| ensures init[i] != last {
        assert Less(keys[i], keys[|keys| - 1]);
        LessTotal(last, last);
      }
      assert keys == init + [last];
      assert (set key | key in keys) == (set key | key in init) + {last};
    }
  }

  // ----- the second run -----

  ghost predicate HasHash(tm: Memory, locale: string, hash: string) {
    exists p | p in tm :: Indexed(p.value, locale) && p.value.textHash == hash
  }

  /** The ladder adds copies only, so it brings no new text hash into the index. */
  lemma {:induction false} LadderAddsNoHash(c: Context, source: seq<FlatPair>, hash: string)
    requires Loaded(c) && HasHash(Ladder(c, source).tm, c.settings.locale, hash)
    ensures HasHash(c.tm, c.settings.locale, hash)
  {
    if source == [] {
    } else {
      var before, p := Ladder(c, source[..|source| - 1]), source[|source| - 1];
      var q :| q in Ladder(c, source).tm && Indexed(q.value, c.settings.locale) && q.value.textHash == hash;
      var choice := ChooseWith(c, before.tm, p);
      if choice.Copy? {
        SetMembers(before.tm, SegmentKey(c, p), CopyFor(c, p, choice.entry), q);
        IndexFinds(c.tm, c.settings.locale, c.settings.hashText(p.value));
      }
      if q in before.tm {
        LadderAddsNoHash(c, source[..|source| - 1], hash);
      }
    }
  }

  /** The same settings, but for whether there is a provider to ask. */
  ghost predicate SameButProvider(s: Settings, s': Settings) {
    s' == s.(hasProvider := s'.hasProvider)
  }

  /** A provider that was not there in the first run finds no fallback to refresh. */
  ghost predicate NoNewWork(c: Context, source: seq<FlatPair>, c': Context) {
    c'.settings.hasProvider && !c.settings.hasProvider ==> forall p | p in source :: !EndsAsFallback(c, p)
  }

  /** What the second run loads is what the first run settled on. */
  ghost predicate Reloaded(c: Context, source: seq<FlatPair>, texts: map<string, string>, now: string, pass: Pass, c': Context) {
    && Loaded(c) && Loaded(c') && SameButProvider(c.settings, c'.settings)
    && c'.tm == SortPairs(pass.tm)
    && (forall p | p in source :: Get(c'.existing, p.key) == Some(FinalText(c, p, texts)))
    && (forall key :: key in c'.previousFallback <==> key in pass.fallback)
    && (!c.settings.hasProvider ==> forall hash :: HasHash(pass.tm, c.settings.locale, hash) ==> HasHash(c.tm, c.settings.locale, hash))
  }

  /** A fallback left by a run without provider has no translation under its text hash. */
  lemma NothingToCopy(c: Context, source: seq<FlatPair>, texts: map<string, string>, now: string, pass: Pass, c': Context, p: FlatPair)
    requires Reloaded(c, source, texts, now, pass, c') && Settled(c, source, texts, now, pass) && p in source
    requires EndsAsFallback(c, p) && (ChoiceFor(c, p).Keep? || ChoiceFor(c, p).Ask?)
    ensures Get(c'.byText, c.settings.hashText(p.value)).None?
  {
    var hash, locale := c.settings.hashText(p.value), c.settings.locale;
    IndexFinds(c.tm, locale, hash);
    IndexFinds(c'.tm, locale, hash);
    if Get(c'.byText, hash).Some? {
      var q :| q in c'.tm && Indexed(q.value, locale) && q.value.textHash == hash;
      SortPairsSorted(pass.tm);
      assert HasHash(pass.tm, locale, hash);
    }
  }

  lemma SecondChoice(c: Context, source: seq<FlatPair>, texts: map<string, string>, now: string, pass: Pass, c': Context, p: FlatPair)
    requires Reloaded(c, source, texts, now, pass, c') && Settled(c, source, texts, now, pass) && p in source
    requires c.settings.hasProvider && ChoiceFor(c, p).Ask? ==> p.key in texts
    requires NoNewWork(c, source, c')
    ensures ChoiceFor(c', p) == Reuse(FinalText(c, p, texts)) || ChoiceFor(c', p) == Keep(FinalText(c, p, texts))
    ensures Refreshes(c', p) <==> EndsAsFallback(c, p)
  {
    assert KeySettled(c, p, texts, now, pass);
    SortTmGet(pass.tm, SegmentKey(c, p));
    assert Get(c'.tm, SegmentKey(c', p)) == FinalEntry(c, p, texts, now);
    if EndsAsFallback(c, p) && (ChoiceFor(c, p).Keep? || ChoiceFor(c, p).Ask?) {
      NothingToCopy(c, source, texts, now, pass, c', p);
    }
  }

  /** A ladder that only reuses and keeps leaves the memory as it was and asks for nothing. */
  lemma {:induction false} QuietLadder(c: Context, source: seq<FlatPair>)
    requires Loaded(c) && DistinctKeys(source)
    requires forall p | p in source :: ChoiceFor(c, p).Reuse? || ChoiceFor(c, p).Keep?
    ensures Ladder(c, source).tm == c.tm && Ladder(c, source).pending == []
  {
    if source == [] {
    } else {
      var init, p := source[..|source| - 1], source[|source| - 1];
      assert forall q | q in init :: q in source;
      assert p in source;
      QuietLadder(c, init);
    }
  }

  lemma {:induction false} NextPairsAt(source: seq<FlatPair>, next: seq<FlatPair>)
    ensures var pairs := NextPairs(source, next);
            |pairs| == |source| && forall i | 0 <= i < |source| :: pairs[i] == NextPair(source[i], next)
  {
    if source == [] {
    } else {
      NextPairsAt(source[..|source| - 1], next);
    }
  }

  lemma {:induction false} SameNextSameOutput(source: seq<FlatPair>, next: seq<FlatPair>, next': seq<FlatPair>, locale: string)
    requires forall p | p in source :: Get(next, p.key) == Get(next', p.key)
    ensures NextPairs(source, next) == NextPairs(source, next')
    ensures Mismatches(source, next, locale) == Mismatches(source, next', locale)
  {
    if source == [] {
    } else {
      assert forall p | p in source[..|source| - 1] :: p in source;
      assert source[|source| - 1] in source;
      SameNextSameOutput(source[..|source| - 1], next, next', locale);
    }
  }

  /** A flattened map that survives being rebuilt as a tree and flattened again. */
  ghost predicate Rebuildable(flat: seq<FlatPair>) {
    DistinctKeys(flat) && PrefixFree(flat) && NoKeyStartsWithDot(flat)
  }

  lemma WrittenTextsReadBack(source: seq<FlatPair>, next: seq<FlatPair>, p: FlatPair)
    requires Rebuildable(source) && p in source && Get(next, p.key).Some?
    ensures Get(Flatten(Rebuild(NextPairs(source, next))), p.key) == Get(next, p.key)
  {
    var pairs := NextPairs(source, next);
    NextPairsAt(source, next);
    assert forall i | 0 <= i < |source| :: pairs[i].key == source[i].key;
    assert Rebuildable(pairs);
    FlattenRebuild(pairs);
    var i :| 0 <= i < |source| && source[i] == p;
    GetAt(pairs, i);
  }

  ghost predicate UpToDate(files: Files, expected: Files) {
    files.locale == expected.locale && files.meta == expected.meta && files.glossary == expected.glossary && SameTm(files.tm, expected.tm)
  }

  lemma SecondRunReloads(files: Files, settings: Settings, source: Source, texts: map<string, string>, force: bool, now: string,
                         files': Files, settings': Settings)
    requires InjectiveKeys(settings) && SameButProvider(settings, settings')
    requires var flat := Flatten(source.tree); var c := LoadContext(files, settings); var pass := Settle(c, flat, texts, force, now);
             && Rebuildable(flat)
             && (settings.hasProvider ==> Covers(texts, Asked(c, flat)))
             && UpToDate(files', Expected(files, c, source, pass, now))
    ensures var flat := Flatten(source.tree); var c := LoadContext(files, settings); var pass := Settle(c, flat, texts, force, now);
            Settled(c, flat, texts, now, pass) && Reloaded(c, flat, texts, now, pass, LoadContext(files', settings'))
  {
    var flat := Flatten(source.tree);
    var c, c' := LoadContext(files, settings), LoadContext(files', settings');
    var pass := Settle(c, flat, texts, force, now);
    LoadKeyed(Load(files.tm, []));
    LoadKeyed(Load(files'.tm, []));
    RunSettles(c, flat, texts, force, now);
    RenderLoad(pass.tm);
    SortKeysAscending(pass.fallback);
    forall p | p in flat ensures Get(c'.existing, p.key) == Some(FinalText(c, p, texts)) {
      assert KeySettled(c, p, texts, now, pass);
      WrittenTextsReadBack(flat, pass.next, p);
    }
    if !settings.hasProvider {
      LadderDecides(c, flat);
      FillKeepsMemory(c, Ladder(c, flat), Ladder(c, flat).pending, force);
      forall hash | HasHash(pass.tm, settings.locale, hash) ensures HasHash(c.tm, settings.locale, hash) {
        LadderAddsNoHash(c, flat, hash);
      }
    }
  }

  lemma {:induction false} FillKeepsMemory(c: Context, pass: Pass, items: seq<Item>, force: bool)
    ensures FillAll(c, pass, items, force).tm == pass.tm
  {
    if items == [] {
    } else {
      FillKeepsMemory(c, pass, items[..|items| - 1], force);
    }
  }

  /** In the second run every key is reused or kept, with the text and fallback state it has. */
  ghost predicate Steady(c: Context, source: seq<FlatPair>, texts: map<string, string>, c': Context) {
    forall p | p in source ::
      && (ChoiceFor(c', p) == Reuse(FinalText(c, p, texts)) || ChoiceFor(c', p) == Keep(FinalText(c, p, texts)))
      && (Refreshes(c', p) <==> EndsAsFallback(c, p))
  }

  lemma SecondChoices(c: Context, source: seq<FlatPair>, texts: map<string, string>, now: string, pass: Pass, c': Context)
    requires Reloaded(c, source, texts, now, pass, c') && Settled(c, source, texts, now, pass) && DistinctKeys(source)
    requires c.settings.hasProvider ==> Covers(texts, Asked(c, source))
    requires NoNewWork(c, source, c')
    ensures Steady(c, source, texts, c')
  {
    AskedMeans(c, source);
    forall p | p in source
      ensures ChoiceFor(c', p) == Reuse(FinalText(c, p, texts)) || ChoiceFor(c', p) == Keep(FinalText(c, p, texts))
      ensures Refreshes(c', p) <==> EndsAsFallback(c, p)
    {
      SecondChoice(c, source, texts, now, pass, c', p);
    }
  }

  /** Second-run choices, put together: nothing pending, same texts, same fallbacks, same memory. */
  lemma SecondPass(c: Context, source: seq<FlatPair>, texts: map<string, string>, now: string, pass: Pass, c': Context,
                   texts': map<string, string>, force': bool, now': string)
    requires Reloaded(c, source, texts, now, pass, c') && Settled(c, source, texts, now, pass) && DistinctKeys(source)
    requires Steady(c, source, texts, c')
    ensures Ladder(c', source).pending == []
    ensures var pass' := Settle(c', source, texts', force', now');
            && pass'.tm == SortPairs(pass.tm)
            && (forall p | p in source :: Get(pass'.next, p.key) == Get(pass.next, p.key))
            && (forall key :: key in pass'.fallback <==> key in pass.fallback)
  {
    QuietLadder(c', source);
    LadderDecides(c', source);
    var pass' := Ladder(c', source);
    assert Settle(c', source, texts', force', now') == pass';
    SecondKeys(c, source, texts, now, pass, c', pass');
  }

  lemma SecondKeys(c: Context, source: seq<FlatPair>, texts: map<string, string>, now: string, pass: Pass, c': Context, pass': Pass)
    requires Settled(c, source, texts, now, pass) && LadderDone(c', source, pass')
    requires Steady(c, source, texts, c')
    ensures forall p | p in source :: Get(pass'.next, p.key) == Get(pass.next, p.key)
    ensures forall key :: key in pass'.fallback <==> key in pass.fallback
  {
    forall p | p in source ensures Get(pass'.next, p.key) == Get(pass.next, p.key) && (p.key in pass'.fallback <==> p.key in pass.fallback) {
      assert RungDone(c', p, pass') && KeySettled(c, p, texts, now, pass);
    }
    forall key ensures key in pass'.fallback <==> key in pass.fallback {
      if !Fresh(source, key) {
        var p :| p in source && p.key == key;
      }
    }
  }

  /** The metadata names the configured provider and model. */
  predicate MadeBy(meta: File<Meta>, s: Settings) {
    meta.Present? && meta.value.provider == s.provider && meta.value.model == s.model
  }

  lemma SecondMeta(files: Files, c: Context, source: Source, size: nat, fallback: seq<string>, now: string,
                   files': Files, c': Context, fallback': seq<string>, now': string)
    requires SameButProvider(c.settings, c'.settings)
    requires files'.meta == Present(NextMeta(files, c, source, size, fallback, now), true)
    requires forall key :: key in fallback' <==> key in fallback
    requires c'.settings.hasProvider ==> MadeBy(files'.meta, c'.settings)
    ensures NextMeta(files', c', source, size, fallback', now') == NextMeta(files, c, source, size, fallback, now)
  {
    SortKeysDetermined(fallback, fallback');
  }

  /** Whether a provider that was added since finds nothing to do. */
  predicate NothingToRefresh(first: Outcome, settings: Settings)
    requires first.Done?
  {
    first.fallbackKeys == [] && MadeBy(first.files.meta, settings)
  }

  lemma SecondExpected(files: Files, settings: Settings, source: Source, texts: map<string, string>, force: bool, now: string,
                       files': Files, settings': Settings, texts': map<string, string>, force': bool, now': string)
    requires InjectiveKeys(settings) && SameButProvider(settings, settings')
    requires var flat := Flatten(source.tree); var c := LoadContext(files, settings); var pass := Settle(c, flat, texts, force, now);
             && Rebuildable(flat)
             && (settings.hasProvider ==> Covers(texts, Asked(c, flat)))
             && UpToDate(files', Expected(files, c, source, pass, now))
             && (settings'.hasProvider ==> MadeBy(files'.meta, settings'))
             && (settings'.hasProvider && !settings.hasProvider ==> pass.fallback == [])
    ensures var flat := Flatten(source.tree);
            var c, c' := LoadContext(files, settings), LoadContext(files', settings');
            var pass, pass' := Settle(c, flat, texts, force, now), Settle(c', flat, texts', force', now');
            && Ladder(c', flat).pending == []
            && Expected(files', c', source, pass', now') == Expected(files, c, source, pass, now)
            && NextPairs(flat, pass'.next) == NextPairs(flat, pass.next)
            && Mismatches(flat, pass'.next, settings.locale) == Mismatches(flat, pass.next, settings.locale)
  {
    var flat := Flatten(source.tree);
    var c, c' := LoadContext(files, settings), LoadContext(files', settings');
    var pass, pass' := Settle(c, flat, texts, force, now), Settle(c', flat, texts', force', now');
    SecondRunReloads(files, settings, source, texts, force, now, files', settings');
    FallbackKeys(c, flat, texts, now, pass);
    SecondChoices(c, flat, texts, now, pass, c');
    SecondPass(c, flat, texts, now, pass, c', texts', force', now');
    SameNextSameOutput(flat, pass'.next, pass.next, settings.locale);
    RenderLoad(pass.tm);
    SecondMeta(files, c, source, |flat|, pass.fallback, now, files', c', pass'.fallback, now');
  }

  lemma EmptyExactly(keys: seq<string>)
    ensures keys == [] <==> forall key :: key !in keys
  {
    if keys != [] {
      assert keys[0] in keys;
    }
  }

  /** A run with a provider names it in the metadata and records no fallback. */
  lemma ProviderLeavesNoFallback(files: Files, settings: Settings, source: Source, texts: map<string, string>, force: bool, now: string)
    requires InjectiveKeys(settings) && settings.hasProvider
    requires Covers(texts, PendingItems(files, settings, source))
    ensures var flat, c := Flatten(source.tree), LoadContext(files, settings);
            var pass := Settle(c, flat, texts, force, now);
            && SortKeys(pass.fallback) == []
            && MadeBy(Expected(files, c, source, pass, now).meta, settings)
  {
    FlatKeysDistinct(source);
    var flat, c := Flatten(source.tree), LoadContext(files, settings);
    var pass := Settle(c, flat, texts, force, now);
    LoadKeyed(Load(files.tm, []));
    LadderDecides(c, flat);
    RunSettles(c, flat, texts, force, now);
    FallbackKeys(c, flat, texts, now, pass);
    EmptyExactly(pass.fallback);
  }

  /** What a later run is when it finds the work done. */
  ghost predicate Repeats(first: Outcome, settings: Settings, source: Source, options: Options, texts: map<string, string>, now: string)
    requires first.Done?
  {
    && PendingItems(first.files, settings, source) == []
    && Sync(first.files, settings, source, options, texts, now) == Done(false, first.fallbackKeys, false, first.texts, first.files)
  }

  /** Sync is idempotent. After a run that may write and passes the placeholder gate, a later run
      with the same source and settings, but for a provider that was added or removed, finds nothing
      pending, leaves every file as it is, reports no change, and ends with the same texts and the
      same fallback keys, whatever its options, the clock and the translator. The one exception is a
      provider added after a run that left fallbacks to refresh or metadata of another provider or model. */
  lemma SyncIdempotent(files: Files, settings: Settings, source: Source, options: Options, texts: map<string, string>, now: string,
                       settings': Settings, options': Options, texts': map<string, string>, now': string)
    requires InjectiveKeys(settings) && SameButProvider(settings, settings') && Rebuildable(Flatten(source.tree))
    requires settings.hasProvider ==> Covers(texts, PendingItems(files, settings, source))
    requires options.write && !options.checkOnly
    requires Sync(files, settings, source, options, texts, now).Done?
    ensures var first := Sync(files, settings, source, options, texts, now);
            Repeats(first, settings', source, options', texts', now')
            <==> (settings'.hasProvider && !settings.hasProvider ==> NothingToRefresh(first, settings'))
  {
    var first := Sync(files, settings, source, options, texts, now);
    if settings'.hasProvider && !settings.hasProvider ==> NothingToRefresh(first, settings') {
      SecondRunRepeats(files, settings, source, options, texts, now, settings', options', texts', now');
    }
    if settings'.hasProvider && Repeats(first, settings', source, options', texts', now') {
      ProviderLeavesNoFallback(first.files, settings', source, texts', options'.force, now');
    }
  }

  lemma SecondRunRepeats(files: Files, settings: Settings, source: Source, options: Options, texts: map<string, string>, now: string,
                         settings': Settings, options': Options, texts': map<string, string>, now': string)
    requires InjectiveKeys(settings) && SameButProvider(settings, settings') && Rebuildable(Flatten(source.tree))
    requires settings.hasProvider ==> Covers(texts, PendingItems(files, settings, source))
    requires options.write && !options.checkOnly
    requires Sync(files, settings, source, options, texts, now).Done?
    requires settings'.hasProvider && !settings.hasProvider ==> NothingToRefresh(Sync(files, settings, source, options, texts, now), settings')
    ensures Repeats(Sync(files, settings, source, options, texts, now), settings', source, options', texts', now')
  {
    var flat, c := Flatten(source.tree), LoadContext(files, settings);
    var pass := Settle(c, flat, texts, options.force, now);
    var first := Sync(files, settings, source, options, texts, now);
    LoadKeyed(Load(files.tm, []));
    LadderDecides(c, flat);
    FirstRunLeaves(files, settings, source, options, texts, now);
    if settings.hasProvider {
      ProviderLeavesNoFallback(files, settings, source, texts, options.force, now);
    }
    SecondExpected(files, settings, source, texts, options.force, now, first.files, settings', texts', options'.force, now');
  }

  /** What a run that may write leaves behind is what it expects, whether or not anything had to be written. */
  lemma FirstRunLeaves(files: Files, settings: Settings, source: Source, options: Options, texts: map<string, string>, now: string)
    requires options.write && !options.checkOnly
    requires Sync(files, settings, source, options, texts, now).Done?
    ensures var c := LoadContext(files, settings);
            var pass := Settle(c, Flatten(source.tree), texts, options.force, now);
            var first := Sync(files, settings, source, options, texts, now);
            && UpToDate(first.files, Expected(files, c, source, pass, now))
            && first.fallbackKeys == SortKeys(pass.fallback)
            && (first.fallbackKeys == [] ==> pass.fallback == [])
  {
    var pass := Settle(LoadContext(files, settings), Flatten(source.tree), texts, options.force, now);
    SortKeysAscending(pass.fallback);
    EmptyExactly(pass.fallback);
  }

  /** The source of the repository is a proper tree, so its sync is idempotent. */
  lemma ProperSourceRebuildable(source: Source)
    requires Proper(source.tree)
    ensures Rebuildable(Flatten(source.tree))
  {
    FlattenPrefixFree(source.tree);
  }

  /** No run leaves or writes a text whose placeholders differ from the source's. */
  lemma DoneKeepsPlaceholders(files: Files, settings: Settings, source: Source, options: Options, texts: map<string, string>, now: string, p: FlatPair)
    requires InjectiveKeys(settings) && p in Flatten(source.tree)
    requires settings.hasProvider ==> Covers(texts, PendingItems(files, settings, source))
    requires Sync(files, settings, source, options, texts, now).Done?
    ensures var text := Get(Sync(files, settings, source, options, texts, now).texts, p.key);
            text.Some? && SamePlaceholders(p.value, text.value)
  {
    FlatKeysDistinct(source);
    var flat, c := Flatten(source.tree), LoadContext(files, settings);
    var pass := Settle(c, flat, texts, options.force, now);
    LoadKeyed(Load(files.tm, []));
    LadderDecides(c, flat);
    RunSettles(c, flat, texts, options.force, now);
    assert KeySettled(c, p, texts, now, pass);
    GateOpens(flat, pass.next, settings.locale);
    NextPairsAt(flat, pass.next);
    var i :| 0 <= i < |flat| && flat[i] == p;
    GetAt(NextPairs(flat, pass.next), i);
  }

  /** `--force` changes nothing: the branch it guards is never reached. */
  lemma ForceHasNoEffect(files: Files, settings: Settings, source: Source, options: Options, texts: map<string, string>, now: string)
    requires InjectiveKeys(settings)
    requires settings.hasProvider ==> Covers(texts, PendingItems(files, settings, source))
    ensures Sync(files, settings, source, options.(force := true), texts, now) == Sync(files, settings, source, options.(force := false), texts, now)
  {
    FlatKeysDistinct(source);
    var flat, c := Flatten(source.tree), LoadContext(files, settings);
    var asked := Ladder(c, flat);
    LoadKeyed(Load(files.tm, []));
    LadderDecides(c, flat);
    AskedMeans(c, flat);
    if settings.hasProvider {
      var applied := ApplyAll(settings, asked, asked.pending, texts, now);
      forall item | item in asked.pending ensures Get(applied.next, item.key).Some? {
        ApplyAllNext(settings, asked, asked.pending, texts, now, item.key);
      }
      FillKeepsComplete(c, applied, asked.pending, true);
      FillKeepsComplete(c, applied, asked.pending, false);
    } else {
      LeftOverHasNothing(c, flat);
      FillForced(c, asked, asked.pending);
    }
  }

  lemma {:induction false} FillForced(c: Context, pass: Pass, items: seq<Item>)
    requires forall item | item in items :: Get(c.existing, item.key).None?
    ensures FillAll(c, pass, items, true) == FillAll(c, pass, items, false)
  {
    if items == [] {
    } else {
      assert items[|items| - 1] in items;
      FillForced(c, pass, items[..|items| - 1]);
    }
  }
}
