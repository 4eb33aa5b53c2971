/** The translation memory: loaded from lines into an ordered map, indexed by
    text hash, and rendered again sorted by cache key. */
module TranslationMemory {
  import opened Text
  import opened OrderedMap
  import opened StringOrder

  datatype TmEntry = TmEntry(
    cacheKey: string, model: string, provider: string, segmentId: string, sourcePath: string, srcLang: string,
    text: string, textHash: string, tgtLang: string, translated: string, updatedAt: string)

  type Memory = seq<Pair<TmEntry>>

  predicate Usable(e: TmEntry) {
    e.cacheKey != "" && Trim(e.translated) != ""
  }

  function LoadTranslationMemory(lines: seq<TmEntry>): Memory {
    if lines == [] then []
    else
      var before, e := LoadTranslationMemory(lines[..|lines| - 1]), lines[|lines| - 1];
      if Usable(e) then Set(before, e.cacheKey, e) else before
  }

  /** A line of the file: blank, not a readable entry, or an entry. */
  datatype Line = Blank | Malformed(message: string) | Entry(entry: TmEntry)

  function EntriesOf(lines: seq<Line>): seq<TmEntry> {
    if lines == [] then []
    else EntriesOf(lines[..|lines| - 1]) + if lines[|lines| - 1].Entry? then [lines[|lines| - 1].entry] else []
  }

  /** The entries are those of the readable lines, in order. */
  lemma {:induction false} EntriesConcat(lines: seq<Line>, more: seq<Line>)
    ensures EntriesOf(lines + more) == EntriesOf(lines) + EntriesOf(more)
  {
    if more == [] {
      assert lines + more == lines;
    } else {
      EntriesConcat(lines, more[..|more| - 1]);
      assert (lines + more)[..|lines + more| - 1] == lines + more[..|more| - 1];
    }
  }

  lemma OneEntry(e: TmEntry)
    ensures EntriesOf([Entry(e)]) == [e] && EntriesOf([Blank]) == []
  {
    assert EntriesOf([]) == [];
  }

  /** Reads the file line by line; the first unreadable line fails it. */
  method ReadTranslationMemory(lines: seq<Line>) returns (result: Result<Memory>)
    ensures result.Ok? <==> forall i | 0 <= i < |lines| :: !lines[i].Malformed?
    ensures result.Ok? ==> result.value == LoadTranslationMemory(EntriesOf(lines))
    ensures result.Err? ==> exists i | 0 <= i < |lines| ::
              lines[i] == Malformed(result.message) && forall k | 0 <= k < i :: !lines[k].Malformed?
  {
    var tm: Memory := [];
    for i := 0 to |lines|
      invariant tm == LoadTranslationMemory(EntriesOf(lines[..i]))
      invariant forall k | 0 <= k < i :: !lines[k].Malformed?
    {
      assert lines[..i + 1][..i] == lines[..i];
      match lines[i] {
        case Blank => assert EntriesOf(lines[..i + 1]) == EntriesOf(lines[..i]);
        case Malformed(message) => return Err(message);
        case Entry(e) =>
          LoadOneMore(EntriesOf(lines[..i]), e);
          if Usable(e) {
            tm := Set(tm, e.cacheKey, e);
          }
      }
    }
    assert lines[..|lines|] == lines;
    return Ok(tm);
  }

  /** Line `i` is the last one with this cache key and a text that is not blank; the empty key is none. */
  ghost predicate LastLine(lines: seq<TmEntry>, key: string, i: int) {
    && 0 <= i < |lines| && key != "" && lines[i].cacheKey == key && Trim(lines[i].translated) != ""
    && forall j | i < j < |lines| :: !(lines[j].cacheKey == key && Trim(lines[j].translated) != "")
  }

  /** A key is loaded exactly when a usable line has it, and the last such line is what is loaded. */
  lemma {:induction false} LoadLastWins(lines: seq<TmEntry>, key: string)
    ensures var found := Get(LoadTranslationMemory(lines), key);
            && (forall i :: LastLine(lines, key, i) ==> found == Some(lines[i]))
            && (found.Some? ==> exists i :: LastLine(lines, key, i))
  {
    if lines == [] {
    } else {
      var init, e := lines[..|lines| - 1], lines[|lines| - 1];
      LoadLastWins(init, key);
      if Usable(e) {
        GetSet(LoadTranslationMemory(init), e.cacheKey, e, key);
      }
      assert forall j | 0 <= j < |init| :: init[j] == lines[j];
      if Usable(e) && e.cacheKey == key {
        assert LastLine(lines, key, |init|);
      } else {
        assert forall i :: LastLine(lines, key, i) <==> LastLine(init, key, i);
      }
    }
  }

  /** What loading and every later update keep: distinct keys, each the entry's own. */
  ghost predicate OwnKeyed(tm: Memory) {
    DistinctKeys(tm) && forall p | p in tm :: p.key == p.value.cacheKey && Usable(p.value)
  }

  predicate Indexed(e: TmEntry, locale: string) {
    e.tgtLang == locale && e.textHash != "" && Trim(e.translated) != ""
  }

  function BuildTranslationMemoryByTextHash(tm: Memory, locale: string): Memory {
    if tm == [] then []
    else
      var before, e := BuildTranslationMemoryByTextHash(tm[..|tm| - 1], locale), tm[|tm| - 1].value;
      if Indexed(e, locale) then Set(before, e.textHash, e) else before
  }

  method IndexByTextHash(tm: Memory, locale: string) returns (index: Memory)
    ensures index == BuildTranslationMemoryByTextHash(tm, locale)
  {
    index := [];
    for i := 0 to |tm|
      invariant index == BuildTranslationMemoryByTextHash(tm[..i], locale)
    {
      assert tm[..i + 1][..i] == tm[..i];
      var e := tm[i].value;
      if Indexed(e, locale) {
        index := Set(index, e.textHash, e);
      }
    }
    assert tm[..|tm|] == tm;
  }

  function Entries(tm: Memory): seq<TmEntry> {
    if tm == [] then [] else Entries(tm[..|tm| - 1]) + [tm[|tm| - 1].value]
  }

  function RenderTranslationMemory(tm: Memory): seq<TmEntry> {
    Entries(SortPairs(tm))
  }

  lemma {:induction false} SetKeyed(tm: Memory, e: TmEntry)
    requires OwnKeyed(tm) && Usable(e)
    ensures OwnKeyed(Set(tm, e.cacheKey, e))
  {
    GetIn(tm, e.cacheKey);
    if Get(tm, e.cacheKey).None? {
      SetAppends(tm, e.cacheKey, e);
      assert forall i | 0 <= i < |tm| :: tm[i] in tm;
    } else {
      SetInPlace(tm, e.cacheKey, e);
    }
  }

  lemma {:induction false} LoadKeyed(lines: seq<TmEntry>)
    ensures OwnKeyed(LoadTranslationMemory(lines))
  {
    if lines == [] {
    } else {
      LoadKeyed(lines[..|lines| - 1]);
      if Usable(lines[|lines| - 1]) {
        SetKeyed(LoadTranslationMemory(lines[..|lines| - 1]), lines[|lines| - 1]);
      }
    }
  }

  lemma SortTmGet(tm: Memory, key: string)
    requires OwnKeyed(tm)
    ensures OwnKeyed(SortPairs(tm)) && Get(SortPairs(tm), key) == Get(tm, key)
  {
    SortPairsSorted(tm);
    AscendingDistinct(SortPairs(tm));
    SameMembersSameGet(SortPairs(tm), tm, key);
  }

  lemma InitKeyed(tm: Memory)
    requires OwnKeyed(tm) && tm != []
    ensures var init, last := tm[..|tm| - 1], tm[|tm| - 1];
            OwnKeyed(init) && Usable(last.value) && last.value.cacheKey == last.key && Get(init, last.key).None?
  {
    var init, last := tm[..|tm| - 1], tm[|tm| - 1];
    assert forall p | p in init :: p in tm;
    assert last in tm;
    GetIn(init, last.key);
  }

  lemma LoadOneMore(lines: seq<TmEntry>, e: TmEntry)
    ensures var before := LoadTranslationMemory(lines);
            LoadTranslationMemory(lines + [e]) == if Usable(e) then Set(before, e.cacheKey, e) else before
  {
    assert (lines + [e])[..|lines|] == lines;
  }

  lemma {:induction false} LoadEntries(tm: Memory)
    requires OwnKeyed(tm)
    ensures LoadTranslationMemory(Entries(tm)) == tm
  {
    if tm == [] {
    } else {
      InitKeyed(tm);
      LoadEntries(tm[..|tm| - 1]);
      LoadLast(tm[..|tm| - 1], tm[|tm| - 1]);
      assert tm == tm[..|tm| - 1] + [tm[|tm| - 1]];
    }
  }

  lemma LoadLast(init: Memory, last: Pair<TmEntry>)
    requires LoadTranslationMemory(Entries(init)) == init
    requires Usable(last.value) && last.value.cacheKey == last.key && Get(init, last.key).None?
    ensures LoadTranslationMemory(Entries(init) + [last.value]) == init + [last]
  {
    LoadOneMore(Entries(init), last.value);
    SetAppends(init, last.key, last.value);
  }

  /** Loading what was rendered gives the memory in sorted order, and rendering that
      again changes nothing. */
  lemma RenderLoad(tm: Memory)
    requires OwnKeyed(tm)
    ensures LoadTranslationMemory(RenderTranslationMemory(tm)) == SortPairs(tm)
    ensures RenderTranslationMemory(SortPairs(tm)) == RenderTranslationMemory(tm)
  {
    SortTmGet(tm, "");
    SortPairsSorted(tm);
    LoadEntries(SortPairs(tm));
    SortSorted(SortPairs(tm));
  }

  /** Entry `i` is the last of the locale with this text hash and a translation that is not blank; the empty hash is none. */
  ghost predicate LastIndexed(tm: Memory, locale: string, hash: string, i: int) {
    && 0 <= i < |tm| && hash != "" && HasText(tm[i].value, locale, hash)
    && forall j | i < j < |tm| :: !HasText(tm[j].value, locale, hash)
  }

  ghost predicate HasText(e: TmEntry, locale: string, hash: string) {
    e.tgtLang == locale && e.textHash == hash && Trim(e.translated) != ""
  }

  /** A hash is found exactly when some such entry has it, and the last such entry is what is found. */
  lemma {:induction false} IndexLastWins(tm: Memory, locale: string, hash: string)
    ensures var found := Get(BuildTranslationMemoryByTextHash(tm, locale), hash);
            && (forall i :: LastIndexed(tm, locale, hash, i) ==> found == Some(tm[i].value))
            && (found.Some? ==> exists i :: LastIndexed(tm, locale, hash, i))
  {
    if tm == [] {
    } else {
      var init, e := tm[..|tm| - 1], tm[|tm| - 1].value;
      IndexLastWins(init, locale, hash);
      if Indexed(e, locale) {
        GetSet(BuildTranslationMemoryByTextHash(init, locale), e.textHash, e, hash);
      }
      assert forall j | 0 <= j < |init| :: init[j] == tm[j];
      if hash != "" && HasText(e, locale, hash) {
        assert LastIndexed(tm, locale, hash, |init|);
      } else {
        assert forall i :: LastIndexed(tm, locale, hash, i) <==> LastIndexed(init, locale, hash, i);
      }
    }
  }

  /** Something is found exactly when an entry of the memory qualifies. */
  lemma IndexFinds(tm: Memory, locale: string, hash: string)
    ensures var found := Get(BuildTranslationMemoryByTextHash(tm, locale), hash);
            && (found.Some? ==> Indexed(found.value, locale) && found.value.textHash == hash)
            && (found.Some? <==> exists p | p in tm :: Indexed(p.value, locale) && p.value.textHash == hash)
  {
    IndexLastWins(tm, locale, hash);
    var found := Get(BuildTranslationMemoryByTextHash(tm, locale), hash);
    if i :| LastIndexed(tm, locale, hash, i) {
      assert tm[i] in tm;
    }
    if p :| p in tm && Indexed(p.value, locale) && p.value.textHash == hash {
      var i :| 0 <= i < |tm| && tm[i] == p;
      SomeLastIndexed(tm, locale, hash, i);
    }
  }

  lemma {:induction false} SomeLastIndexed(tm: Memory, locale: string, hash: string, i: nat)
    requires i < |tm| && hash != "" && HasText(tm[i].value, locale, hash)
    ensures exists k :: LastIndexed(tm, locale, hash, k)
    decreases |tm| - i
  {
    if j :| i < j < |tm| && HasText(tm[j].value, locale, hash) {
      SomeLastIndexed(tm, locale, hash, j);
    } else {
      assert LastIndexed(tm, locale, hash, i);
    }
  }
}
