# Verified models of the release and development scripts

This project models the scripts of the repository that hold real protocols, scanners, graph searches
and caches, and proves properties of them. `dafny verify dfyconfig.toml` checks everything. One module
per file; a class or method where the script updates state step by step, a datatype and functions where
it computes, and, where both exist, a method whose contract ties it to the function the lemmas are about.

| component | script | modules |
|---|---|---|
| RPC client over one child process | `control-ui-i18n.ts` | `PiRpc`, `PiSession` |
| retry-and-split translator, greedy batcher | `control-ui-i18n.ts` | `BatchTranslator`, `TranslationBatches` |
| locale sync: ladder, memory, trees, placeholder gate | `control-ui-i18n.ts` | `LocaleSync`, `SyncResults`, `SyncRun`, `TranslationMemory`, `TranslationTree`, `Placeholders` |
| parenthesis matcher, argument splitter, reader pool | `check-temp-path-guardrails.ts` | `ParenMatcher`, `ArgumentSplitter`, `ReaderPool` |
| teardown, restart probe, output lines, process tree | `bench-gateway-restart.ts` | `StopChild`, `RestartProbe`, `OutputLines`, `ProcessTree` |
| supervised command | `openclaw-cross-os-release-checks.ts` | `CommandRun` |
| import reachability | `openclaw-npm-postpublish-verify.ts` | `ImportSearch`, `Reachability` |
| schema signatures and names | `protocol-gen-swift.ts` | `CanonicalJson`, `JsonText`, `SchemaNames` |
| shell quoting | `release-beta-smoke.ts` | `ShellQuote` |
| paged batches, crash-safe checkpoints | `label-open-issues.ts` | `LabelBatches`, `LabelState` |

`Text`, `StringOrder` and `OrderedMap` hold what the others share: string helpers, code-unit order, and
insertion-ordered maps as the scripts' `Map` and object values are.

The environment is explicit everywhere: child processes, timers, the network and the file system act
through events, scripts of answers or finite maps that a theorem quantifies over.

## What the proofs found

- A client that is kept after a failed prompt can hand the next prompt its predecessor's reply
  (`PiSession.FailureCanMixReplies`); a resolved prompt has its own reply exactly when no reply was
  outstanding at its start, which dropping the client after every failure guarantees.
- Flattening a rebuilt dotted map gives the map back exactly when no key is a dotted prefix of another
  and no key starts with a dot.
- The batcher charges two characters more per item than `estimateBatchChars` does for the same batch. Its
  cuts are the shortest under its own charge; under the estimate fewer batches can do
  (`TranslationBatches.EstimateWouldAllowFewer`).
- `--force` has no effect on the outcome of a locale's sync: the branch it guards is never reached with an
  existing text.
- An error whose text contains "timed out", for example the "missing translation for …" error of a key
  that is named so, is treated as a prompt timeout (`BatchTranslator.MissingKeyAsTimeout`).
- A provider that is added after a run without one finds work exactly when that run left fallbacks or its
  metadata names another provider or model (`LocaleSync.SyncIdempotent`).
- A command whose kill request reports an error synchronously settles first and arms its kill-wait timer
  afterwards; every other way of settling leaves no timer armed. The stray timer can only clear itself
  (`CommandRun.StrayTimerHappens`, `CommandRun.StrayTimerHarmless`).
- Output that arrives after a command has settled is still written to its log, whose stream has been ended.
- A checkpoint write that is cut short leaves an unreadable file, which counts as empty: items saved before
  can then be classified again, and only then (`LabelState.SavedExactly`, `LabelState.CutWriteLoses`).
- Quoted words are read back by the shell exactly when none holds a NUL character.

## Model

| member | source | states |
|---|---|---|
| PiRpc.EveryRunSound | scripts/control-ui-i18n.ts:1343-1498 | in every interleaving of calls, turns, lines, write errors, process events and timers: at most one request pending, owned by the last call started; an unsettled running prompt has its deadline and heartbeat armed; settled and queued prompts have neither; request numbers increase |
| PiRpc.StepKeepsSound | scripts/control-ui-i18n.ts:1371-1484 | every single event keeps that invariant |
| PiRpc.SettledForGood | scripts/control-ui-i18n.ts:1449-1460 | once a prompt is settled no later event changes how |
| PiRpc.DeadlineSettles | scripts/control-ui-i18n.ts:1435-1447 | a running prompt always has a deadline that can fire; firing rejects it, removes its timers, closes the client and leaves nothing pending |
| PiRpc.AgentEndSettles | scripts/control-ui-i18n.ts:1399-1408 | an agent_end settles the pending prompt by the last message that is not passed over: rejected with its error text, or with the default one, if it has an error or stopped with one; resolved with its plain text, or with the texts of its text blocks; rejected as not found if every message is passed over; no other prompt is touched and nothing stays pending |
| PiRpc.BlocksJoined | scripts/control-ui-i18n.ts:1517-1525 | the text of content blocks is that of each block, joined in order |
| PiRpc.OneBlock | scripts/control-ui-i18n.ts:1517-1525 | a block contributes its text exactly if it is of kind text and has one |
| PiRpc.OtherLinesSettle | scripts/control-ui-i18n.ts:1371-1398 | a failed response to the pending request rejects it with its trimmed error or the default one, a successful one is noted, and every other line but an agent_end changes nothing |
| PiRpc.ProcessEventsReject | scripts/control-ui-i18n.ts:1343-1352 | a process error rejects the pending prompt and leaves the client open; the process closing rejects it and closes the client; without a pending prompt nothing else changes |
| PiRpc.WriteErrorRejects | scripts/control-ui-i18n.ts:1471-1481 | a write error rejects its own prompt if that is still running, and changes nothing if it is settled |
| PiRpc.TurnBegins | scripts/control-ui-i18n.ts:1420-1466 | the turn of the next call: rejected as unavailable by a closed client, otherwise numbered one higher, pending, running and with both timers armed; no other prompt is touched |
| PiRpc.ExtractTranslationResult | scripts/control-ui-i18n.ts:1500-1529 | the last message that decides gives the verdict; without one the result is the not-found error |
| PiRpc.PiRpcClient.constructor | scripts/control-ui-i18n.ts:1288-1299 | a fresh client: open, nothing pending, no request sent |
| PiRpc.PiRpcClient.Call | scripts/control-ui-i18n.ts:1419-1420 | a call joins the end of the promise chain and changes nothing else |
| PiRpc.PiRpcClient.StartNext | scripts/control-ui-i18n.ts:1421-1463 | the next call's turn: rejected if the client is closed, otherwise numbered, pending and with both timers armed |
| PiRpc.PiRpcClient.SettlePending | scripts/control-ui-i18n.ts:1363-1369 | the pending prompt, if any, is settled and no longer pending; without one nothing changes |
| PiRpc.PiRpcClient.HandleStdoutLine | scripts/control-ui-i18n.ts:1371-1417 | the method acts on the fields as the protocol step does and keeps the invariant; what the step does with each kind of line is `PiRpc.AgentEndSettles` and `PiRpc.OtherLinesSettle` |
| PiRpc.PiRpcClient.OnWriteError | scripts/control-ui-i18n.ts:1471-1481 | a late or early write error rejects its own prompt only, and clears the pending request only if it is that prompt's |
| PiRpc.PiRpcClient.OnDeadline | scripts/control-ui-i18n.ts:1435-1447 | a deadline that fires acts only on its own request |
| PiRpc.PiRpcClient.OnProcessError | scripts/control-ui-i18n.ts:1343-1345 | a process error rejects the pending prompt and leaves the client open |
| PiRpc.PiRpcClient.OnProcessClose | scripts/control-ui-i18n.ts:1347-1352 | the process closing closes the client and rejects the pending prompt |
| PiRpc.PiRpcClient.CloseClient | scripts/control-ui-i18n.ts:1486-1497 | the first close marks the client closed, ends its input and sends SIGTERM, and SIGKILL only if that could not be delivered; later closes do nothing, and none settles a prompt |
| PiSession.EverySessionCoherent | scripts/control-ui-i18n.ts:1371-1484 | with a process that answers each received request once, in order: what was outstanding at each start determines whose reply a prompt took, in every run |
| PiSession.RepliesAttributed | scripts/control-ui-i18n.ts:1371-1484 | a resolved prompt carries the agent_end of its own request exactly when nothing was outstanding at its start, and nothing was if every earlier call resolved |
| PiSession.FailureCanMixReplies | scripts/control-ui-i18n.ts:1389-1398 | a run in which a failed prompt's reply resolves the next prompt |
| PiSession.OnlyLastFails | scripts/control-ui-i18n.ts:1557-1559 | on each client all attempts but the last succeeded |
| PiSession.TranslatorNeverMixesReplies | scripts/control-ui-i18n.ts:1371-1593 | with the translator as caller and its replies being how the sessions' prompts settled: on each client, at every moment and with an attempt under way or not, every resolved prompt carries the reply to its own request |
| BatchTranslator.ReadReply | scripts/control-ui-i18n.ts:1547-1556 | a reply is accepted exactly when every item has a non-blank text, with the reply's own texts for exactly the items' keys; otherwise its failure is reported, or the first item without text |
| BatchTranslator.Try | scripts/control-ui-i18n.ts:1543-1561 | one attempt, recorded as what the environment answered to it; the client is the one of the last attempt if that succeeded, otherwise a new one if it can be started, and none survives a failure |
| BatchTranslator.TranslateBatch | scripts/control-ui-i18n.ts:1531-1593 | ends on all replies and failures with at most 4n - 2 prompts; the log stays true to the environment; a result has exactly the items' keys, each with the non-blank text that the reply to an attempt at a batch holding the key has for it; an accepted first attempt is the only one; a plain failure is followed by the same batch, a timeout by its first half or, for one item, by nothing; every attempt asks for a stretch of the items; it gives up only over one timed-out item or two plain failures in a row, with the last error |
| BatchTranslator.MissingKeyAsTimeout | scripts/control-ui-i18n.ts:876-878 | a missing translation counts as a timeout if the words stand in the key, in any case |
| BatchTranslator.TimeoutExactly | scripts/control-ui-i18n.ts:876-878 | a message is taken for a timeout if and only if the words stand somewhere in it, in letters of any case |
| BatchTranslator.DeadlineErrorIsTimeout | scripts/control-ui-i18n.ts:1446-1447 | the error of the client's own prompt deadline is taken for a timeout |
| BatchTranslator.RejectedFirstPrompt | scripts/control-ui-i18n.ts:1563-1590 | when the first prompt is rejected with a text that holds the words, several items are followed by their first half, the larger one if they are odd, and one item ends the run with that error; rejected with any other text, the same items are asked for again |
| BatchTranslator.Split | scripts/control-ui-i18n.ts:1563-1580 | the halves are translated left first; the first failing half decides; the log stays true to the environment |
| TranslationBatches.BuildTranslationBatches | scripts/control-ui-i18n.ts:1261-1285 | the batches concatenate to the items, each has 1 to 20 items and is a singleton or within the budget, and no other such cut has fewer batches |
| TranslationBatches.SaturatedIsShortest | scripts/control-ui-i18n.ts:1267-1278 | a cut in which no batch could take its successor's first item is a shortest one |
| TranslationBatches.LoopOverestimates | scripts/control-ui-i18n.ts:917-919 | the loop charges exactly two more per item than the estimate of the whole batch |
| TranslationBatches.ChargeExactly | scripts/control-ui-i18n.ts:917-919 | the estimate is the characters of all keys and texts, eight more per item and two; the loop charges ten per item and two |
| TranslationBatches.EstimateWouldAllowFewer | scripts/control-ui-i18n.ts:1267-1270 | two items that one batch could hold by the estimate, and for which every cut by the loop's charge needs two |
| TranslationTree.FlattenTranslations | scripts/control-ui-i18n.ts:331-341 | the loop computes the flattened map, in insertion order |
| TranslationTree.PathsAreLookups | scripts/control-ui-i18n.ts:331-341 | the leaves listed are exactly the texts that can be looked up |
| TranslationTree.LookupSetPath | scripts/control-ui-i18n.ts:343-358 | setting a path changes that path, removes its prefixes and extensions, and leaves every other path alone |
| TranslationTree.FlattenRebuild | scripts/control-ui-i18n.ts:331-358 | flattening the rebuilt map gives the map back if and only if its keys are prefix-free and none starts with a dot |
| TranslationTree.RebuildFlatten | scripts/control-ui-i18n.ts:331-358 | a tree with non-empty dot-free distinct keys and no empty sub-objects is rebuilt entry for entry from its flattened form |
| TranslationTree.FlattenPrefixFree | scripts/control-ui-i18n.ts:331-341 | the flattened keys of such a tree are distinct, prefix-free and without a leading dot |
| Placeholders.CapturesExact | scripts/control-ui-i18n.ts:374-378 | the names captured are exactly the words that occur in braces |
| Placeholders.SamePlaceholdersExactly | scripts/control-ui-i18n.ts:374-399 | the sorted lists agree exactly when the two texts hold the same set of placeholders |
| Placeholders.PlaceholdersListed | scripts/control-ui-i18n.ts:374-378 | the list of a text's placeholders is sorted and holds exactly the words that occur in braces, once each |
| Placeholders.MismatchesExact | scripts/control-ui-i18n.ts:380-399 | the report holds exactly the keys whose translation changed the set of placeholders, each with the locale and both lists |
| Placeholders.GateOpens | scripts/control-ui-i18n.ts:400-411 | the gate reports nothing if and only if every text has the placeholders of its source |
| Placeholders.FindPlaceholderMismatches | scripts/control-ui-i18n.ts:380-399 | the loop computes that report |
| TranslationMemory.ReadTranslationMemory | scripts/control-ui-i18n.ts:488-507 | the loop over the lines skips blank ones, fails with the first unreadable one, and otherwise computes the loaded memory |
| TranslationMemory.LoadLastWins | scripts/control-ui-i18n.ts:488-507 | a cache key is loaded exactly when a line has it, it is not empty and the translation is not blank, and the last such line is the one loaded |
| TranslationMemory.EntriesConcat | scripts/control-ui-i18n.ts:494-506 | the entries read are those of the lines, in order |
| TranslationMemory.IndexByTextHash | scripts/control-ui-i18n.ts:519-531 | the loop over the memory computes the index |
| TranslationMemory.LoadKeyed | scripts/control-ui-i18n.ts:488-507 | loading any lines gives distinct keys, each its entry's own, with usable entries only |
| TranslationMemory.RenderLoad | scripts/control-ui-i18n.ts:488-517 | loading what was rendered gives the memory sorted by key, and rendering that again changes nothing |
| TranslationMemory.IndexFinds | scripts/control-ui-i18n.ts:519-531 | the text-hash index finds a usable entry of the locale if and only if there is one |
| TranslationMemory.IndexLastWins | scripts/control-ui-i18n.ts:519-531 | a hash that is not empty is found exactly when an entry of the locale has it with a translation that is not blank, and the last such entry of the memory is what is found |
| LocaleSync.Choose | scripts/control-ui-i18n.ts:1633-1669 | the whole table: a key in good standing is served by the memory, then the file, then a text like it; a fallback is served by neither memory nor file while there is a provider; a key is asked about if and only if nothing may serve it |
| LocaleSync.LadderDecides | scripts/control-ui-i18n.ts:1628-1669 | after the ladder every key not asked about has the text, fallback state and memory entry that its own rung gives it, whatever the other keys did |
| LocaleSync.AskedMeans | scripts/control-ui-i18n.ts:1663-1668 | the pending items are exactly the keys no rung could serve, once each, with distinct cache keys |
| LocaleSync.RunSettles | scripts/control-ui-i18n.ts:1628-1760 | after translating and filling, every source key has its final text, fallback state and memory entry, and no other key is a fallback |
| LocaleSync.TranslationsKept | scripts/control-ui-i18n.ts:1703-1722 | a translation is kept under its key with the text it translates, that text's hash and the locale, and the text-hash index of the resulting memory finds a translation of that text |
| LocaleSync.MetaCounts | scripts/control-ui-i18n.ts:1777-1802 | the recorded fallback keys are exactly the source keys that end as fallbacks, once each and in order, and total, translated and fallback counts add up without going negative |
| LocaleSync.NextMeta | scripts/control-ui-i18n.ts:1781-1802 | a timestamp other than now means the metadata is the previous one; metadata equal to the previous one in everything else is the previous one |
| LocaleSync.NothingToCopy | scripts/control-ui-i18n.ts:1645-1654 | a fallback left without a provider has no translation under its text hash, so a later run cannot pick one up |
| LocaleSync.SecondPass | scripts/control-ui-i18n.ts:1624-1760 | a second run over what the first left asks for nothing and ends with the same texts, fallback keys and memory |
| LocaleSync.SyncIdempotent | scripts/control-ui-i18n.ts:1602-1865 | after a run that may write and passes the gate, a later run with the same source and settings, but for a provider added or removed, has nothing pending, reports no change, writes nothing and ends with the same texts, fallback keys and files, whatever its options, clock and translator; with a provider added this holds if and only if the first run left no fallback and its metadata names the configured provider and model |
| LocaleSync.ProviderLeavesNoFallback | scripts/control-ui-i18n.ts:1628-1802 | a run with a provider records no fallback and names its provider and model |
| LocaleSync.ProperSourceRebuildable | scripts/control-ui-i18n.ts:1610-1611 | a source tree with dot-free keys and no empty sub-objects meets the condition of idempotence |
| LocaleSync.DoneKeepsPlaceholders | scripts/control-ui-i18n.ts:1766-1771 | a run that gets past the gate has, for every source key, a text with the source's placeholders |
| LocaleSync.ForceHasNoEffect | scripts/control-ui-i18n.ts:1745-1760 | the outcome is the same with and without force |
| SyncResults.PendingExactly | scripts/control-ui-i18n.ts:1628-1669 | in terms of what was loaded alone: the pending items are those of the keys that no entry of the memory, no text of the file and no entry for the same text serves, and of the fallbacks that no entry for the same text serves while there is a provider; all of them, in the order of the source, each with its cache key, key, text and hash |
| SyncResults.NewKeyIsAsked | scripts/control-ui-i18n.ts:1663-1668 | a key in neither the memory nor the file whose text no entry of the locale has is pending |
| SyncResults.ContextLoaded | scripts/control-ui-i18n.ts:1612-1622 | what the ladder starts from: the last line of each cache key, the flattened file, the previous fallback keys, and nothing for a file that is missing |
| SyncResults.SyncServes | scripts/control-ui-i18n.ts:1628-1771 | a finished run has one text per key, in the order of the source; a key asked about has its translation, or without a provider its source text as a fallback; one served by a text like it has that of the last such entry and is no fallback; any other has the memory's text, or else the file's, and stays a fallback if it was one |
| SyncResults.FallbacksFromSource | scripts/control-ui-i18n.ts:1777-1779 | the fallback keys are sorted, once each, and keys of the source |
| SyncResults.SyncKeeps | scripts/control-ui-i18n.ts:1645-1722 | what the memory holds for a key in the end: the copied entry under the key's own identity and path, a translation with the run's model, provider, locale and time, or what it held before |
| SyncResults.OthersUntouched | scripts/control-ui-i18n.ts:1628-1722 | entries under any other cache key stay as they were |
| SyncResults.GateExactly | scripts/control-ui-i18n.ts:1766 | a run stops at the placeholder gate if and only if the text some key ends with does not have the placeholders of its source |
| SyncResults.WritesOnlyWhenTold | scripts/control-ui-i18n.ts:1819-1865 | files are written exactly in a run that may write, does not just check and would change one; a run that may not write leaves them alone and reports the same texts, fallbacks and change |
| SyncResults.WrittenTexts | scripts/control-ui-i18n.ts:1768-1810 | a written locale file reads back as the texts reported, if the keys can be rebuilt, and the written glossary is the one there was or else the default |
| SyncResults.WrittenMeta | scripts/control-ui-i18n.ts:1773-1802 | the written metadata has the run's fallback keys, locale, source hash and counts, and the configured provider and model or else those it had; its time is now unless all else is as it was |
| SyncResults.WrittenMemory | scripts/control-ui-i18n.ts:1810-1854 | the written memory file lists its entries by cache key and loads as the memory the run ended with; no file is made for an empty memory |
| SyncRun.AuthErrorExactly | scripts/control-ui-i18n.ts:880-888 | an error is taken for one of authentication if and only if one of the four phrases stands in it, in any case |
| SyncRun.ClimbLadder | scripts/control-ui-i18n.ts:1628-1669 | the loop over the source computes the ladder |
| SyncRun.FillPending | scripts/control-ui-i18n.ts:1745-1760 | the loop over the pending items computes the filling |
| SyncRun.BuildNextMap | scripts/control-ui-i18n.ts:1768-1771 | the loop builds the tree of the final texts |
| SyncRun.TranslateNext | scripts/control-ui-i18n.ts:1694-1722 | one batch is translated and entered item by item; every text comes from a reply |
| SyncRun.TranslatePending | scripts/control-ui-i18n.ts:1671-1722 | if no batch fails, the texts cover exactly the pending items, each from a reply to an attempt holding its key, and all are entered as if at once; no attempt exceeds the limits of a batch, and there are at most four prompts for each item; otherwise it ends as the translator gave up |
| SyncRun.Conclude | scripts/control-ui-i18n.ts:1745-1856 | the filling, the placeholder gate and the writing compute the outcome the lemmas are about |
| SyncRun.SyncLocale | scripts/control-ui-i18n.ts:1602-1865 | the whole run: its log is true to the environment and empty when no provider is asked or nothing is pending; it fails with the error the translator gave up with, or is skipped exactly when that is an authentication error and authentication is optional; otherwise its outcome is the one the lemmas are about, with texts that cover what was pending and each come from a reply |
| ParenMatcher.QuoteScanState.ConsumeQuotedChar | scripts/check-temp-path-guardrails.ts:54-70 | consumes exactly inside quotes; escapes last one character; only the same unescaped quote closes |
| ParenMatcher.QuoteScanState.BeginQuotedSection | scripts/check-temp-path-guardrails.ts:46-52 | opens a quote exactly at an apostrophe, a double quote or a backtick |
| ParenMatcher.RunText | scripts/check-temp-path-guardrails.ts:72-95 | text of the grammar leaves the scanner as it found it |
| ParenMatcher.RunReads | scripts/check-temp-path-guardrails.ts:72-95 | whatever the scanner reads without stopping is an open prefix of the grammar |
| ParenMatcher.ClosesStops | scripts/check-temp-path-guardrails.ts:88-91 | the scanner never runs past a match |
| ParenMatcher.FindMatchingParen | scripts/check-temp-path-guardrails.ts:72-95 | returns i exactly when the text up to i is in the grammar of plain characters, quoted strings and nested parentheses and a closing parenthesis is at i; there is at most one such i; -1 exactly when there is none |
| ArgumentSplitter.SplitTopLevelArguments | scripts/check-temp-path-guardrails.ts:97-162 | the scanning loop computes the trimmed pieces, without a blank last one |
| ArgumentSplitter.PiecesRebuild | scripts/check-temp-path-guardrails.ts:97-162 | on any input the untrimmed pieces, joined with commas, are the input |
| ArgumentSplitter.PiecesUnique | scripts/check-temp-path-guardrails.ts:97-162 | the pieces are the only list of texts without a top-level comma, all but the last neutral for the scanner, whose join is the input |
| ArgumentSplitter.SplitUndoesJoin | scripts/check-temp-path-guardrails.ts:97-162 | splitting the ", "-join of trimmed, non-empty, neutral arguments without top-level comma gives them back |
| ArgumentSplitter.GrammarSplits | scripts/check-temp-path-guardrails.ts:97-162 | a comma-join of texts made of single characters, complete quoted strings and balanced brackets of the three kinds, with commas in quotes and brackets only, is split into exactly these texts |
| ArgumentSplitter.OpenBracketSwallows | scripts/check-temp-path-guardrails.ts:119-149 | behind a bracket that is never closed nothing is split |
| ArgumentSplitter.OpenQuoteSwallows | scripts/check-temp-path-guardrails.ts:105-114 | behind a quote that is never closed nothing is split |
| ArgumentSplitter.ArgumentsExactly | scripts/check-temp-path-guardrails.ts:150-161 | the arguments are the pieces without the white space around them, in order, and without a last piece of white space only |
| ReaderPool.Pool.ClaimNext | scripts/check-temp-path-guardrails.ts:232-242 | a worker claims exactly the next index for itself; past the end it claims none and is done |
| ReaderPool.Pool.CompleteRead | scripts/check-temp-path-guardrails.ts:243-253 | a completed read puts what its path gives into the worker's own slot and changes no other |
| ReaderPool.EveryScheduleSound | scripts/check-temp-path-guardrails.ts:229-258 | over every schedule of worker moves: indices are claimed once each and in order, each claimed one is read or being read by the worker that claimed it, and no worker is done before all are claimed |
| ReaderPool.PeakBounded | scripts/check-temp-path-guardrails.ts:229-262 | over every schedule at most 24 reads are in flight at any moment |
| ReaderPool.QuietIsSequential | scripts/check-temp-path-guardrails.ts:229-262 | over every schedule, once all workers are done, all indices were claimed and the output without its gaps is the sequential read of the paths in order |
| ReaderPool.SequentialExactly | scripts/check-temp-path-guardrails.ts:236-262 | the sequential read is the files of the readable paths, all of them, once each and in the order of the paths, each with its relative path and its text |
| ReaderPool.PresentConcat | scripts/check-temp-path-guardrails.ts:262 | removing the gaps keeps the order |
| ReaderPool.WorkersExactly | scripts/check-temp-path-guardrails.ts:257-260 | one worker per path up to 24, and one for no path, at every moment of a run |
| ReaderPool.MovesBounded | scripts/check-temp-path-guardrails.ts:229-258 | over every schedule the workers make at most three moves for each path and 24 to stop |
| ReaderPool.ReadRuntimeSourceFiles | scripts/check-temp-path-guardrails.ts:223-263 | under a free scheduler the pool runs until all workers are done; its result is the sequential read, and its peak is that of the schedule that was run |
| StopChild.Stop | scripts/bench-gateway-restart.ts:884-940 | for every timing of the exit: at most one SIGTERM, sent exactly when no exit is known, and one SIGKILL, exactly after a delivered SIGTERM and a full grace period without exit, each delivered if the group or else the child takes it; over as soon as the exit is known or seen, and otherwise with the grace periods; exitedBeforeTeardown exactly when no SIGTERM was delivered; any exit code is the child's; the child is released exactly when no exit is known at the end |
| StopChild.WaitForExit | scripts/bench-gateway-restart.ts:905-906 | the race is won by an exit event within the period, when it comes, and otherwise lasts the whole period |
| RestartProbe.WaitForRestartProbe | scripts/bench-gateway-restart.ts:632-717 | the report on the attempts made: transitions are the attempts without consecutive repeats, ms is the last attempt's time if it returned 200, the first failure and first error are the first, downtime is non-null exactly when a failure was followed by a 200 and is first recovery minus first failure; no attempt is made past the deadline, after the process is done, after the recovery, or once the iteration is done with successes only; and the loop stops only for these reasons |
| RestartProbe.Observe | scripts/bench-gateway-restart.ts:668-706 | one attempt keeps the loop's variables true of all attempts so far |
| RestartProbe.DowntimeNonNegative | scripts/bench-gateway-restart.ts:700-711 | with a clock that does not run back the downtime is never negative |
| RestartProbe.RecoveryReported | scripts/bench-gateway-restart.ts:632-717 | a downtime is reported exactly when a failure was followed by a 200 |
| RestartProbe.ReportDetermined | scripts/bench-gateway-restart.ts:632-717 | the attempts determine every field of the report |
| RestartProbe.TransitionsExactly | scripts/bench-gateway-restart.ts:672-689 | the transitions are the attempts that are the first or differ in status or error kind from the one before, all of them, once each and in order, with their time, status and error kind |
| RestartProbe.TransitionListed | scripts/bench-gateway-restart.ts:672-689 | a transition is listed if and only if such an attempt made it |
| RestartProbe.TransitionsAlternate | scripts/bench-gateway-restart.ts:672-689 | consecutive transitions differ in state and the last one is the state of the last attempt |
| OutputLines.ChunksDoNotMatter | scripts/bench-gateway-restart.ts:1156-1162 | the lines and the carry after any chunks are those of the whole text at once, also when a chunk ends between CR and LF |
| OutputLines.SplitMore | scripts/bench-gateway-restart.ts:1156-1162 | more text changes only what follows the last line end |
| OutputLines.LineEnds | scripts/bench-gateway-restart.ts:1157 | a text without line feed before a CR LF is one line and the rest is split on its own; the same before an LF alone if the text does not end in CR |
| OutputLines.OneLine | scripts/bench-gateway-restart.ts:1157 | a text without line feed is one part |
| ProcessTree.ReadProcessTreeCpuMs | scripts/bench-gateway-restart.ts:1026-1075 | the total is the sum over exactly the processes reachable from the root through parent links, each once, also when the table has cycles; none for a root that is 0 or not listed |
| ProcessTree.ChildrenExactly | scripts/bench-gateway-restart.ts:1038-1053 | a process is followed as a child exactly if some row names it with that parent |
| ProcessTree.CpuExactly | scripts/bench-gateway-restart.ts:1038-1053 | a process has a CPU time exactly if some row lists it, and it is that of the last such row |
| CommandRun.EveryRunKept | scripts/openclaw-cross-os-release-checks.ts:3552-3684 | in every order of events: which timers are armed before and after settling, and that a timed-out command never resolves |
| CommandRun.SettledForGood | scripts/openclaw-cross-os-release-checks.ts:3585-3593 | the command settles once |
| CommandRun.TimeoutOnlyRejects | scripts/openclaw-cross-os-release-checks.ts:3614-3633 | once the timeout has fired first, the command can only be rejected |
| CommandRun.ResolvesExactly | scripts/openclaw-cross-os-release-checks.ts:3654-3682 | it resolves if and only if close comes before any error and any timeout with exit code 0 or checking off, and then with the exit code and all output before the close |
| CommandRun.OutputConcat | scripts/openclaw-cross-os-release-checks.ts:3646-3655 | the output of a stream is what arrived on it, in order |
| CommandRun.FirstDecides | scripts/openclaw-cross-os-release-checks.ts:3614-3682 | the first deciding event settles the command with its own reason: an error or failed kill request as such, a checked non-zero close with its exit code |
| CommandRun.TimeoutSettles | scripts/openclaw-cross-os-release-checks.ts:3614-3682 | after a timeout that comes first, the command settles exactly at the first error, close or end of the kill wait, with that reason |
| CommandRun.TimersClearedExactly | scripts/openclaw-cross-os-release-checks.ts:3573-3633 | the event that settles leaves no timer armed, except the kill-wait timer exactly when it is a timeout whose kill request reports an error at once |
| CommandRun.TimersExactly | scripts/openclaw-cross-os-release-checks.ts:3573-3633 | over every run, once settled, no timer is armed except the kill-wait timer, and that exactly when the event that decided was such a timeout and the wait has not run out since |
| CommandRun.StrayTimerHappens | scripts/openclaw-cross-os-release-checks.ts:3614-3631 | a run that leaves the kill-wait timer armed after settling |
| CommandRun.StrayTimerHarmless | scripts/openclaw-cross-os-release-checks.ts:3621-3629 | that timer, when it fires, changes nothing but itself |
| CommandRun.NoTimerComesBack | scripts/openclaw-cross-os-release-checks.ts:3573-3593 | once settled and without that timer, no timer is ever armed again |
| CommandRun.LateWriteExactly | scripts/openclaw-cross-os-release-checks.ts:3646-3655 | the ended log is written to exactly when output arrives after settling |
| CommandRun.LateWriteHappens | scripts/openclaw-cross-os-release-checks.ts:3646-3659 | a run in which that happens |
| CommandRun.Command.constructor | scripts/openclaw-cross-os-release-checks.ts:3562-3644 | the timers armed at the start are those the options ask for |
| CommandRun.Command.Settle | scripts/openclaw-cross-os-release-checks.ts:3585-3593 | the first settlement stands and clears the timers; later ones do nothing |
| CommandRun.Command.OnData | scripts/openclaw-cross-os-release-checks.ts:3646-3655 | output is collected on its own stream and logged |
| CommandRun.Command.OnError | scripts/openclaw-cross-os-release-checks.ts:3657-3659 | an error event rejects unless settled |
| CommandRun.Command.OnClose | scripts/openclaw-cross-os-release-checks.ts:3661-3682 | a close event settles by timeout flag, exit code and check option, a missing code counting as 1 |
| CommandRun.Command.OnTimeout | scripts/openclaw-cross-os-release-checks.ts:3614-3631 | the timeout marks, logs, kills and then arms the kill-wait timer |
| CommandRun.Command.OnKillWaitOver | scripts/openclaw-cross-os-release-checks.ts:3621-3629 | the kill wait running out rejects unless settled |
| Reachability.ClosedHolds | scripts/openclaw-npm-postpublish-verify.ts:262-315 | a set that holds the start and is closed under the edges holds everything reachable |
| ImportSearch.ExtractJavaScriptImportSpecifiers | scripts/openclaw-npm-postpublish-verify.ts:338-398 | the specifiers are exactly those that an import, export-from, dynamic import or one-argument require node anywhere in the syntax tree names by a non-empty literal |
| ImportSearch.NamedModuleExactly | scripts/openclaw-npm-postpublish-verify.ts:327-388 | a node names a module exactly if it is one of the four node kinds with a literal source, or a call of require with a literal as its one argument, and the literal is not empty |
| ImportSearch.InsideExactly | scripts/openclaw-npm-postpublish-verify.ts:389-395 | inside an object are exactly the objects that are its property values or its elements |
| ImportSearch.SearchComplete | scripts/openclaw-npm-postpublish-verify.ts:351-395 | with nothing pending every node inside the tree was visited |
| ImportSearch.ResolveInstalledDistRelativeImport | scripts/openclaw-npm-postpublish-verify.ts:226-260 | the first of the seven candidates of a relative specifier, in their order, that exists and whose way from the dist root is not empty, absolute or upwards; none exactly if there is none |
| ImportSearch.CheckSpecifiers | scripts/openclaw-npm-postpublish-verify.ts:295-311 | a zod specifier ends the check; otherwise the targets are exactly the files the specifiers resolve to |
| ImportSearch.ZodExactly | scripts/openclaw-npm-postpublish-verify.ts:296 | a specifier names zod exactly if it is zod or continues zod/ |
| ImportSearch.CheckFile | scripts/openclaw-npm-postpublish-verify.ts:279-311 | a file passes exactly when it is a regular file within the size limit that parses and names zod nowhere |
| ImportSearch.VisitFile | scripts/openclaw-npm-postpublish-verify.ts:273-311 | one turn of the search: a finding describes a reachable file and decides the search; otherwise the file and what it imports are accounted for |
| ImportSearch.CollectInstalledPluginSdkZodArtifactErrors | scripts/openclaw-npm-postpublish-verify.ts:262-315 | no finding exactly when every file reachable from the entry through resolved relative imports passes; the search ends on cycles; a finding describes a reachable file truly |
| CanonicalJson.StableIsCanonical | scripts/protocol-gen-swift.ts:112-125 | canonical forms are equal exactly for JSON values that are equal up to key order at every depth |
| JsonText.RenderReads | scripts/protocol-gen-swift.ts:127-129 | rendered JSON text, followed by nothing or a terminator, determines the value and what follows |
| JsonText.SignatureDecides | scripts/protocol-gen-swift.ts:127-129 | two schemas have equal signatures exactly when they are equal up to key order at every depth |
| SchemaNames.SchemaRegistry.constructor | scripts/protocol-gen-swift.ts:107-110 | an empty registry |
| SchemaNames.SchemaRegistry.RegisterNamedSchema | scripts/protocol-gen-swift.ts:131-143 | after any registrations the three collections say: the last name of each object, the name of each signature registered exactly once, and the signatures registered more than once |
| SchemaNames.SchemaRegistry.NamedSchema | scripts/protocol-gen-swift.ts:145-150 | the object's own name wins; the structural name is used only if allowed |
| SchemaNames.StructuralNameMeans | scripts/protocol-gen-swift.ts:131-150 | a schema has a structural name exactly when one registration alone had a schema equal up to key order, and it is that registration's name |
| SchemaNames.OrderDoesNotMatter | scripts/protocol-gen-swift.ts:131-143 | structural names do not depend on the order of registrations |
| ShellQuote.QuotedWordsReadBack | scripts/release-beta-smoke.ts:106-108 | for any list of values the POSIX reader gets exactly that list from the joined quoted words if none holds a NUL, and nothing otherwise |
| ShellQuote.QuotedReads | scripts/release-beta-smoke.ts:106-108 | quoted text adds exactly its value to the word being read, wherever it stands |
| ShellQuote.ShellEscapeReads | scripts/openclaw-cross-os-release-checks.ts:3855-3857 | a value escaped with shellEscapeForSh inside single quotes is read as that one word exactly when it holds no NUL |
| ShellQuote.ParallelsCommandReads | scripts/release-beta-smoke.ts:144-165 | the command handed to bash is read as exec, the timeout command, its two options and the forwarded words, whatever they hold, if and only if none holds a NUL |
| LabelBatches.FetchOpenLabelItemBatches | scripts/label-open-issues.ts:473-533 | the batches concatenate to the items within the limit, every batch but the last has exactly 500 and the last 1 to 500, each knows its index and how many were fetched when it was handed out; a page is asked for only if promised and the limit is not reached; if a fetch fails, the full batches so far were handed out |
| LabelBatches.TakePage | scripts/label-open-issues.ts:499-517 | the items of one page are taken in order up to the limit and every 500 handed out |
| LabelBatches.WithinLimit | scripts/label-open-issues.ts:488-502 | a limit of n, or a fraction below it, lets exactly the first n items through, or all if there are fewer; without a limit all pass |
| LabelBatches.ServedConcat | scripts/label-open-issues.ts:497-517 | items are served page by page |
| LabelBatches.OnePageServed | scripts/label-open-issues.ts:464-471 | a page serves its nodes in order, each with its number and title, its body or else the empty text, its labels or else none |
| LabelState.SnapshotLoads | scripts/label-open-issues.ts:315-357 | what a checkpoint stores is what the next start loads |
| LabelState.EveryRunSound | scripts/label-open-issues.ts:771-948 | over every run with crashes and restarts: the process knows all that the file holds, queues none of it, and between batches of a writing run the file holds all that it knows |
| LabelState.NeverClassifiedAgain | scripts/label-open-issues.ts:791-928 | an item in a saved checkpoint stays there and is never classified again, over any crashes and restarts in which no write that takes place is cut short |
| LabelState.SavedExactly | scripts/label-open-issues.ts:791-928 | an item that would be classified at all is safe from being classified again, over all such runs, if and only if the checkpoint holds it |
| LabelState.CutWriteLoses | scripts/label-open-issues.ts:346-349 | after a write cut short, whatever was saved before, every item that would be classified at all can be classified again |
| LabelState.CrashWritingForgets | scripts/label-open-issues.ts:346-349 | a run in which a cut-short write leads to a second classification |
| LabelState.WorkThrough | scripts/label-open-issues.ts:791-852 | the batch loop is the crash-free run of the state machine, checkpoint writes included |
| LabelState.WorkOff | scripts/label-open-issues.ts:879-922 | the pending items are asked about in order, but for pull requests that carry the skill label, and all are done afterwards |
| LabelState.PendingConcat | scripts/label-open-issues.ts:796 | the pending items are those of a batch that are not done, in order |
| LabelState.OneMark | scripts/label-open-issues.ts:879-900 | an item is asked about, unless it is a pull request with the skill label |
| LabelState.LoopSavesAll | scripts/label-open-issues.ts:791-928 | after a writing run of the loop every item of every batch is in the checkpoint |

## Left out

- LocaleSync.SyncIdempotent: the two runs may differ in whether there is a provider, not in its configured name or model, which are part of every cache key; the condition on the source (`Rebuildable`) holds for every tree with non-empty dot-free keys and no empty sub-objects.
- LocaleSync.InjectiveKeys: the SHA-256 digests over segment ids and text hashes are taken as never empty and different when either differs.
- TranslationTree.LookupSetPath: `setNestedValue` updates nested objects in place; the model rebuilds values, so aliasing between sub-objects is not captured. Names that an object inherits (`constructor`, `__proto__`) and the reordering of integer-like names are not modelled.
- Placeholders.SamePlaceholdersExactly: `localeCompare` is modelled as code-unit order; two different names that a locale compares as equal are not modelled. The same holds for the order of fallback keys and of the translation memory.
- TranslationMemory.ReadTranslationMemory: lines come parsed; a run whose memory file is unreadable fails before `LocaleSync.LoadContext`, which starts from readable files.
- PiRpc.EveryRunSound: `stdin.write` and `kill` throwing, the boot wait and the texts of progress messages are not modelled.
- BatchTranslator.TranslateBatch: a reply is parsed already or comes with the parser's error text; retry pauses and labels are not modelled.
- CommandRun.TimersExactly: `child.kill` throwing and the `taskkill` helper process on Windows are not modelled beyond an error that may be reported at once or later.
- ReaderPool.ReadRuntimeSourceFiles: files do not change while the pool runs; the relative path is a parameter.
- ImportSearch.ResolveInstalledDistRelativeImport: path joining and relative paths are parameters of the platform, not computed.
- RestartProbe.WaitForRestartProbe: the probe events shared with other measurements are not modelled; time is the attempt's own time.
- StopChild.Stop: signals are modelled by whether the platform delivers them, not by their effect; the exit may come at any time either way.
- ProcessTree.ReadProcessTreeCpuMs: the table is given parsed; the text of `ps` is not modelled.
- JsonText.SignatureDecides: a number is the text it is rendered to; undefined members, lone surrogates and the reordering of integer-like keys are not modelled.
- ShellQuote.ParallelsCommandReads: the reader refuses unquoted expansions, operators, patterns and comments instead of giving them a meaning, so the profile-loading prefix of the command is not read.
- LabelBatches.FetchOpenLabelItemBatches: total counts and the cursor passed to the next fetch are not modelled; the answers are the pages the server gives in order.
- LabelState.NeverClassifiedAgain: an item listed twice in one batch is classified twice before the batch is saved, as in the script; which labels a classification adds is not modelled.
- Characters are Unicode scalar values, not UTF-16 code units.
- `hasDynamicTmpdirJoin`, whose regular expressions would be most of the model.
- `collectInstalledRootDependencyManifestErrors`: a lookup of package names over the same import search.
- `withAllocatedGatewayPort` and the retry loop of `runAgentTurn`: bounded retries around steps that are not modelled.
- `emitDiscriminatedUnion` and the Swift text.
- `mergeTelegramProofIntoReleaseBody`, `summarizeNumbers`, `summarizeCase` and the startup benchmark, which would add only easy members.
