/** The sync as it runs: load, climb the ladder, translate what is pending batch
    by batch over one lazily created client, fill, check, and write. */
module SyncRun {
  import opened Text
  import opened OrderedMap
  import opened Placeholders
  import opened TranslationTree
  import opened TranslationBatches
  import opened TranslationMemory
  import opened LocaleSync
  import Translator = BatchTranslator

  predicate IsProviderAuthError(message: string) {
    var lower := Lower(message);
    || Contains(lower, "401") || Contains(lower, "authentication_error")
    || Contains(lower, "incorrect api key") || Contains(lower, "invalid x-api-key")
  }

  /** An error is taken for one of authentication when it names one of four phrases, in any case. */
  lemma AuthErrorExactly(message: string)
    ensures IsProviderAuthError(message) <==>
              exists before, word, after ::
                && message == before + word + after
                && (Lower(word) == "401" || Lower(word) == "authentication_error"
                    || Lower(word) == "incorrect api key" || Lower(word) == "invalid x-api-key")
  {
    FoundInAnyCase(message, "401");
    FoundInAnyCase(message, "authentication_error");
    FoundInAnyCase(message, "incorrect api key");
    FoundInAnyCase(message, "invalid x-api-key");
  }

  method ClimbLadder(c: Context, source: seq<FlatPair>) returns (pass: Pass)
    ensures pass == Ladder(c, source)
  {
    pass := Pass(c.tm, [], [], []);
    for i := 0 to |source|
      invariant pass == Ladder(c, source[..i])
    {
      assert source[..i + 1][..i] == source[..i];
      pass := Rung(c, pass, source[i]);
    }
    assert source[..|source|] == source;
  }

  method FillPending(c: Context, pass: Pass, pending: seq<Item>, force: bool) returns (filled: Pass)
    ensures filled == FillAll(c, pass, pending, force)
  {
    filled := pass;
    for i := 0 to |pending|
      invariant filled == FillAll(c, pass, pending[..i], force)
    {
      assert pending[..i + 1][..i] == pending[..i];
      filled := FillOne(c, filled, pending[i], force);
    }
    assert pending[..|pending|] == pending;
  }

  method BuildNextMap(source: seq<FlatPair>, next: seq<FlatPair>) returns (tree: seq<Entry>)
    ensures tree == Rebuild(NextPairs(source, next))
  {
    tree := [];
    ghost var pairs := NextPairs(source, next);
    NextPairsAt(source, next);
    for i := 0 to |source|
      invariant SetAll(tree, pairs[i..]) == Rebuild(pairs)
    {
      assert pairs[i..][1..] == pairs[i + 1..];
      var pair := NextPair(source[i], next);
      tree := SetNestedValue(tree, pair.key, pair.value);
    }
  }

  lemma {:induction false} ApplyAllAgrees(s: Settings, pass: Pass, items: seq<Item>, texts: map<string, string>, texts': map<string, string>, now: string)
    requires forall item | item in items :: item.key in texts && item.key in texts' && texts[item.key] == texts'[item.key]
    ensures ApplyAll(s, pass, items, texts, now) == ApplyAll(s, pass, items, texts', now)
  {
    if items == [] {
    } else {
      assert items[|items| - 1] in items;
      ApplyAllAgrees(s, pass, items[..|items| - 1], texts, texts', now);
    }
  }

  /** The translations of one batch, entered item by item. */
  method ApplyBatch(s: Settings, pass: Pass, batch: seq<Item>, texts: map<string, string>, now: string, ghost asked: Pass, ghost done: seq<Item>)
    returns (applied: Pass)
    requires pass == ApplyAll(s, asked, done, texts, now)
    ensures applied == ApplyAll(s, asked, done + batch, texts, now)
  {
    applied := pass;
    assert done + batch[..0] == done;
    for i := 0 to |batch|
      invariant applied == ApplyAll(s, asked, done + batch[..i], texts, now)
    {
      assert (done + batch[..i + 1])[..|done| + i] == done + batch[..i];
      applied := ApplyTranslation(s, applied, batch[i], texts, now);
    }
    assert batch[..|batch|] == batch;
  }

  datatype Translation = Aborted(message: string) | Complete(pass: Pass, texts: map<string, string>)

  /** The pass and the texts agree on the items done so far. */
  ghost predicate Progress(s: Settings, asked: Pass, done: seq<Item>, pass: Pass, texts: map<string, string>, now: string) {
    && texts.Keys == Translator.Keys(done) && Covers(texts, done)
    && pass == ApplyAll(s, asked, done, texts, now)
  }

  /** Every text is the text for its key in the reply to an attempt whose batch holds the key. */
  ghost predicate FromReplies(world: Translator.World, texts: map<string, string>, log: seq<Translator.Attempt>) {
    forall key | key in texts :: Translator.Answered(world, key, texts[key], log, 0)
  }

  /** The log is true, uses no client after a failure, asks within both limits, and is not longer than the items allow. */
  ghost predicate Orderly(world: Translator.World, log: seq<Translator.Attempt>, items: nat, budget: real) {
    && Translator.Truthful(world, log) && Translator.DropsFailedClients(log)
    && (forall i | 0 <= i < |log| :: Fits(log[i].batch, budget))
    && Translator.Prompts(log) <= 4 * items
  }

  method EnterBatch(s: Settings, batch: seq<Item>, pass: Pass, texts: map<string, string>, translated: map<string, string>,
                    now: string, ghost asked: Pass, ghost done: seq<Item>)
    returns (result: Translation)
    requires Progress(s, asked, done, pass, texts, now) && DistinctItems(asked.pending) && done + batch <= asked.pending
    requires translated.Keys == Translator.Keys(batch) && Covers(translated, batch)
    ensures result.Complete? && result.texts == texts + translated
    ensures Progress(s, asked, done + batch, result.pass, result.texts, now)
  {
    BatchIsNew(asked.pending, done, batch, texts);
    var allTexts := texts + translated;
    ApplyAllAgrees(s, asked, done, texts, allTexts, now);
    var applied := ApplyBatch(s, pass, batch, allTexts, now, asked, done);
    result := Complete(applied, allTexts);
  }

  /** Between two batches: everything done so far is entered, from replies, over an orderly log. */
  ghost predicate Underway(s: Settings, world: Translator.World, asked: Pass, now: string, done: seq<Item>, result: Translation,
                           conn: Translator.Connection, log: seq<Translator.Attempt>) {
    && Translator.Consistent(conn, log) && Orderly(world, log, |done|, s.budget)
    && result.Complete? && Progress(s, asked, done, result.pass, result.texts, now) && FromReplies(world, result.texts, log)
  }

  method TranslateNext(s: Settings, world: Translator.World, batch: seq<Item>, pass: Pass, texts: map<string, string>,
                       conn: Translator.Connection, log: seq<Translator.Attempt>, now: string, ghost asked: Pass, ghost done: seq<Item>)
    returns (result: Translation, conn': Translator.Connection, log': seq<Translator.Attempt>)
    requires Underway(s, world, asked, now, done, Complete(pass, texts), conn, log)
    requires Fits(batch, s.budget) && DistinctItems(asked.pending) && done + batch <= asked.pending
    ensures Orderly(world, log', |done| + |batch|, s.budget)
    ensures result.Complete? ==> Underway(s, world, asked, now, done + batch, result, conn', log')
    ensures result.Aborted? ==> Translator.GaveUp(log', 0, result.message)
  {
    var translated;
    translated, conn', log' := Translator.TranslateBatch(world, batch, conn, log);
    StaysOrderly(world, log', log, batch, translated, |done|, s.budget);
    if translated.Err? {
      return Aborted(translated.message), conn', log';
    }
    BatchAnswered(world, log', |log|, batch, translated);
    MoreReplies(world, texts, translated.value, log', log, batch);
    result := EnterBatch(s, batch, pass, texts, translated.value, now, asked, done);
  }

  lemma StaysOrderly(world: Translator.World, log': seq<Translator.Attempt>, log: seq<Translator.Attempt>, batch: seq<Item>,
                     result: Result<map<string, string>>, done: nat, budget: real)
    requires Orderly(world, log, done, budget) && Fits(batch, budget)
    requires Translator.Truthful(world, log') && Translator.DropsFailedClients(log')
    requires Translator.Conducted(world, log', log, batch, result)
    requires Translator.Prompts(log') <= Translator.Prompts(log) + Translator.PromptBound(|batch|)
    ensures Orderly(world, log', done + |batch|, budget)
  {
    forall i | 0 <= i < |log'| ensures Fits(log'[i].batch, budget) {
      if i < |log| {
        assert log'[i] == log[i];
      } else {
        assert Translator.PartOf(log'[i].batch, batch);
        if log'[i].batch != batch {
          var a, b :| 0 <= a < b <= |batch| && log'[i].batch == batch[a..b];
          InfixFits(batch, a, b, budget);
        }
      }
    }
  }

  lemma MoreReplies(world: Translator.World, texts: map<string, string>, more: map<string, string>,
                    log': seq<Translator.Attempt>, log: seq<Translator.Attempt>, batch: seq<Item>)
    requires FromReplies(world, texts, log) && Translator.Conducted(world, log', log, batch, Ok(more))
    ensures FromReplies(world, texts + more, log')
  {
    var all := texts + more;
    forall key | key in all ensures Translator.Answered(world, key, all[key], log', 0) {
      if key in more {
        assert Translator.Answered(world, key, more[key], log', |log|);
      } else {
        assert Translator.Answered(world, key, texts[key], log, 0);
        var i :| 0 <= i < |log| && Translator.AnsweredBy(world, key, texts[key], log[i], i);
        assert log'[i] == log[i];
      }
    }
  }

  /** The batches from `i` on are what is left after the items done, each within the limits. */
  ghost predicate Left(batches: seq<seq<Item>>, i: nat, done: seq<Item>, pending: seq<Item>, budget: real) {
    && i <= |batches| && done + Concat(batches[i..]) == pending
    && forall k | i <= k < |batches| :: Fits(batches[k], budget)
  }

  lemma NextBatch(batches: seq<seq<Item>>, i: nat, done: seq<Item>, pending: seq<Item>, budget: real)
    requires Left(batches, i, done, pending, budget) && i < |batches|
    ensures Fits(batches[i], budget) && done + batches[i] <= pending
    ensures Left(batches, i + 1, done + batches[i], pending, budget)
  {
    assert batches[i..][0] == batches[i] && batches[i..][1..] == batches[i + 1..];
    assert done + (batches[i] + Concat(batches[i + 1..])) == done + batches[i] + Concat(batches[i + 1..]);
  }

  lemma AllLeft(batches: seq<seq<Item>>, pending: seq<Item>, budget: real)
    requires Partition(batches, pending, budget)
    ensures Left(batches, 0, [], pending, budget)
  {
    assert batches[0..] == batches && [] + Concat(batches) == pending;
  }

  lemma NoneLeft(batches: seq<seq<Item>>, done: seq<Item>, pending: seq<Item>, budget: real)
    requires Left(batches, |batches|, done, pending, budget)
    ensures done == pending
  {
    assert batches[|batches|..] == [];
  }

  lemma NothingDone(s: Settings, world: Translator.World, asked: Pass, now: string)
    ensures Underway(s, world, asked, now, [], Complete(asked, map[]), Translator.Connection(None, 0), [])
  {
  }

  method TranslatePending(s: Settings, world: Translator.World, asked: Pass, now: string)
    returns (result: Translation, log: seq<Translator.Attempt>)
    requires DistinctItems(asked.pending)
    ensures Orderly(world, log, |asked.pending|, s.budget)
    ensures result.Complete? ==> Progress(s, asked, asked.pending, result.pass, result.texts, now) && FromReplies(world, result.texts, log)
    ensures result.Aborted? ==> Translator.GaveUp(log, 0, result.message)
  {
    var batches := BuildTranslationBatches(asked.pending, s.budget);
    var conn := Translator.Connection(None, 0);
    log := [];
    result := Complete(asked, map[]);
    ghost var done: seq<Item> := [];
    AllLeft(batches, asked.pending, s.budget);
    NothingDone(s, world, asked, now);
    for i := 0 to |batches|
      invariant Left(batches, i, done, asked.pending, s.budget)
      invariant Underway(s, world, asked, now, done, result, conn, log)
    {
      NextBatch(batches, i, done, asked.pending, s.budget);
      result, conn, log := TranslateNext(s, world, batches[i], result.pass, result.texts, conn, log, now, asked, done);
      if result.Aborted? {
        return;
      }
      done := done + batches[i];
    }
    NoneLeft(batches, done, asked.pending, s.budget);
  }

  lemma BatchAnswered(world: Translator.World, log: seq<Translator.Attempt>, from: nat, batch: seq<Item>, result: Result<map<string, string>>)
    requires result.Ok? && Translator.Explains(world, log, from, batch, result)
    ensures Covers(result.value, batch)
  {
    forall item | item in batch ensures item.key in result.value && Trim(result.value[item.key]) != "" {
      assert item.key in Translator.Keys(batch);
      assert Translator.Answered(world, item.key, result.value[item.key], log, from);
    }
  }

  lemma BatchIsNew(pending: seq<Item>, done: seq<Item>, batch: seq<Item>, texts: map<string, string>)
    requires DistinctItems(pending) && done + batch <= pending && texts.Keys == Translator.Keys(done)
    ensures forall item | item in done :: item.key in texts && item.key !in Translator.Keys(batch)
  {
    forall item | item in done ensures item.key in texts && item.key !in Translator.Keys(batch) {
      var i :| 0 <= i < |done| && done[i] == item;
      assert pending[i] == item;
      forall j | 0 <= j < |batch| ensures batch[j].key != item.key {
        assert pending[|done| + j] == batch[j];
      }
    }
  }

  /** The provider, if there is one, is asked for what is pending, if anything is. */
  method TranslateAsked(s: Settings, world: Translator.World, asked: Pass, now: string) returns (result: Translation, log: seq<Translator.Attempt>)
    requires DistinctItems(asked.pending)
    ensures Orderly(world, log, |asked.pending|, s.budget)
    ensures !s.hasProvider || asked.pending == [] ==> log == []
    ensures result.Aborted? ==> Translator.GaveUp(log, 0, result.message)
    ensures result.Complete? ==>
              && FromReplies(world, result.texts, log)
              && (s.hasProvider ==> Covers(result.texts, asked.pending))
              && result.pass == if s.hasProvider then ApplyAll(s, asked, asked.pending, result.texts, now) else asked
  {
    if !s.hasProvider || asked.pending == [] {
      return Complete(asked, map[]), [];
    }
    result, log := TranslatePending(s, world, asked, now);
  }

  /** Fills in what is left, checks the placeholders, and writes what changed. */
  method Conclude(files: Files, c: Context, source: Source, flat: seq<FlatPair>, asked: Pass, translated: Pass, options: Options, now: string)
    returns (outcome: Outcome)
    requires flat == Flatten(source.tree) && c == LoadContext(files, c.settings)
    ensures outcome == Decide(files, c, source, FillAll(c, translated, asked.pending, options.force), options, now)
  {
    var pass := FillPending(c, translated, asked.pending, options.force);
    var mismatches := FindPlaceholderMismatches(flat, pass.next, c.settings.locale);
    if mismatches != [] {
      return PlaceholderMismatch(mismatches);
    }
    var nextMap := BuildNextMap(flat, pass.next);
    var expected := Expected(files, c, source, pass, now);
    assert expected.locale == Present(nextMap, true);
    var changed := Changed(files, expected);
    var wrote := !options.checkOnly && options.write && changed;
    outcome := Done(changed, expected.meta.value.fallbackKeys, wrote, NextPairs(flat, pass.next),
                    if wrote then Written(files, expected) else files);
  }

  /** Why a run ended without a decision on the files: the translator gave up, over an authentication error
      that may be skipped or over another error, which is passed on. */
  ghost predicate EndsForReason(settings: Settings, outcome: Outcome, log: seq<Translator.Attempt>) {
    match outcome
    case AuthSkipped =>
      settings.authOptional && exists message :: Translator.GaveUp(log, 0, message) && IsProviderAuthError(message)
    case Failed(message) =>
      Translator.GaveUp(log, 0, message) && !(settings.authOptional && IsProviderAuthError(message))
    case _ => true
  }

  /** One locale's run. `texts` are the translations taken and `log` the attempts made at them. */
  method SyncLocale(files: Files, settings: Settings, source: Source, options: Options, world: Translator.World, now: string)
    returns (outcome: Outcome, texts: map<string, string>, log: seq<Translator.Attempt>)
    requires InjectiveKeys(settings)
    ensures Orderly(world, log, |PendingItems(files, settings, source)|, settings.budget)
    ensures !settings.hasProvider || PendingItems(files, settings, source) == [] ==> log == []
    ensures EndsForReason(settings, outcome, log)
    ensures FromReplies(world, texts, log)
    ensures !outcome.Failed? && !outcome.AuthSkipped? ==>
              && outcome == Sync(files, settings, source, options, texts, now)
              && (settings.hasProvider ==> Covers(texts, PendingItems(files, settings, source)))
  {
    var flat := FlattenTranslations(source.tree, "", []);
    var c := LoadContext(files, settings);
    var asked := ClimbLadder(c, flat);
    PendingDistinct(files, settings, source);
    var translation;
    translation, log := TranslateAsked(settings, world, asked, now);
    if translation.Aborted? {
      texts := map[];
      outcome := if settings.authOptional && IsProviderAuthError(translation.message) then AuthSkipped
                 else LocaleSync.Failed(translation.message);
      return;
    }
    texts := translation.texts;
    outcome := Conclude(files, c, source, flat, asked, translation.pass, options, now);
  }

  lemma PendingDistinct(files: Files, settings: Settings, source: Source)
    requires InjectiveKeys(settings)
    ensures DistinctItems(PendingItems(files, settings, source))
  {
    var c := LoadContext(files, settings);
    FlattenDistinct(source.tree, "", []);
    LoadKeyed(Load(files.tm, []));
    LadderDecides(c, Flatten(source.tree));
    AskedMeans(c, Flatten(source.tree));
  }
}
