/** The retry-and-split translator: it asks for a batch, retries once after an
    ordinary failure, halves the batch after a timeout, and drops the client
    after every failed attempt. */
module BatchTranslator {
  import opened Text
  import opened TranslationBatches

  const TRANSLATE_MAX_ATTEMPTS := 2

  datatype Field = TextField(value: string) | OtherField

  /** What the process answers to one prompt: the prompt is rejected, the reply
      is not a readable JSON object, or it is an object with these fields. */
  datatype Reply = Rejected(message: string) | Unreadable(message: string) | Replied(fields: map<string, Field>)

  /** The environment: for each attempt, whether starting a process would fail, and the reply. */
  datatype World = World(spawn: nat -> Option<string>, reply: nat -> Reply)

  datatype Outcome = Failed(message: string) | Translated(texts: map<string, string>)

  /** One attempt; `client` is None when no process could be started, so no prompt was sent. */
  datatype Attempt = Attempt(batch: seq<Item>, client: Option<nat>, outcome: Outcome)

  /** The lazily created client and the number the next one gets. */
  datatype Connection = Connection(client: Option<nat>, next: nat)

  predicate IsPromptTimeout(message: string) {
    Contains(Lower(message), "timed out")
  }

  predicate TimedOut(a: Attempt) {
    a.outcome.Failed? && IsPromptTimeout(a.outcome.message)
  }

  function Keys(items: seq<Item>): set<string> {
    set item | item in items :: item.key
  }

  predicate HasText(fields: map<string, Field>, key: string) {
    key in fields && fields[key].TextField? && Trim(fields[key].value) != ""
  }

  predicate PlainlyFailed(a: Attempt) {
    a.outcome.Failed? && !TimedOut(a)
  }

  function Prompts(log: seq<Attempt>): nat {
    if log == [] then 0 else Prompts(log[..|log| - 1]) + if log[|log| - 1].client.Some? then 1 else 0
  }

  function PromptBound(n: nat): nat {
    if n == 0 then 2 else 4 * n - 2
  }

  function FirstHalf(items: seq<Item>): seq<Item> {
    items[..(|items| + 1) / 2]
  }

  /** No client is used again after an attempt on it failed. */
  ghost predicate DropsFailedClients(log: seq<Attempt>) {
    forall i, j | 0 <= i < j < |log| && log[i].client.Some? && log[i].client == log[j].client ::
      log[i].outcome.Translated?
  }

  /** The connection holds the client of the last attempt if that succeeded, and none otherwise;
      everything asked of that client so far succeeded. */
  ghost predicate Consistent(conn: Connection, log: seq<Attempt>) {
    && DropsFailedClients(log)
    && (forall i | 0 <= i < |log| :: log[i].client.Some? ==> log[i].client.value < conn.next)
    && conn.client == (if log != [] && log[|log| - 1].outcome.Translated? then log[|log| - 1].client else None)
    && (conn.client.Some? ==> forall i | 0 <= i < |log| :: log[i].client == conn.client ==> log[i].outcome.Translated?)
  }

  // ----- what the environment said -----

  predicate FirstMissing(fields: map<string, Field>, items: seq<Item>, i: int) {
    0 <= i < |items| && !HasText(fields, items[i].key) && forall k | 0 <= k < i :: HasText(fields, items[k].key)
  }

  /** The outcome is what the reply deserves: the reply's own texts for exactly the items' keys, or
      the reply's failure, or the first item left without text. */
  ghost predicate Judges(outcome: Outcome, items: seq<Item>, reply: Reply) {
    match outcome
    case Translated(texts) =>
      && reply.Replied? && texts.Keys == Keys(items)
      && forall key | key in texts :: HasText(reply.fields, key) && texts[key] == reply.fields[key].value
    case Failed(message) =>
      match reply
      case Replied(fields) =>
        exists i :: FirstMissing(fields, items, i) && message == "missing translation for " + items[i].key
      case Rejected(reason) => message == reason
      case Unreadable(reason) => message == reason
  }

  /** An attempt without a client failed with what starting a process failed with; any other one
      was judged by the reply to it. */
  ghost predicate TruthfulEntry(world: World, a: Attempt, i: nat) {
    if a.client.None? then a.outcome.Failed? && world.spawn(i) == Some(a.outcome.message)
    else Judges(a.outcome, a.batch, world.reply(i))
  }

  /** The client of attempt `i`: the one before if that succeeded, otherwise a new one if it can be started. */
  ghost predicate OnRightClient(world: World, log: seq<Attempt>, i: nat)
    requires i < |log|
  {
    if i > 0 && log[i - 1].outcome.Translated? then log[i].client == log[i - 1].client
    else log[i].client.Some? <==> world.spawn(i).None?
  }

  /** The log is what happened: every attempt's client and outcome are the environment's answers to it. */
  ghost predicate Truthful(world: World, log: seq<Attempt>) {
    forall i | 0 <= i < |log| :: TruthfulEntry(world, log[i], i) && OnRightClient(world, log, i)
  }

  /** `text` is the non-blank text for `key` in the reply to an attempt from `from` on whose batch holds `key`. */
  ghost predicate Answered(world: World, key: string, text: string, log: seq<Attempt>, from: nat) {
    exists i | from <= i < |log| :: AnsweredBy(world, key, text, log[i], i)
  }

  predicate AnsweredBy(world: World, key: string, text: string, a: Attempt, i: nat) {
    && a.client.Some? && a.outcome.Translated? && key in Keys(a.batch) && world.reply(i).Replied?
    && HasText(world.reply(i).fields, key) && world.reply(i).fields[key].value == text
  }

  // ----- how the translator reacts -----

  /** A timed-out batch of several items is followed by its first half, one of a single item by nothing,
      and a plain failure by a second attempt at the same batch, if by anything. */
  ghost predicate ReactsAt(log: seq<Attempt>, i: nat)
    requires i < |log|
  {
    && (TimedOut(log[i]) && |log[i].batch| > 1 ==> i + 1 < |log| && log[i + 1].batch == FirstHalf(log[i].batch))
    && (TimedOut(log[i]) && |log[i].batch| <= 1 ==> i + 1 == |log|)
    && (PlainlyFailed(log[i]) && i + 1 < |log| ==> log[i + 1].batch == log[i].batch)
  }

  ghost predicate Reacts(log: seq<Attempt>, from: nat) {
    forall i | from <= i < |log| :: ReactsAt(log, i)
  }

  /** The translator gives up only over one item that timed out, or over a batch
      that failed twice in a row without a timeout; it reports the last failure. */
  ghost predicate GaveUp(log: seq<Attempt>, from: nat, message: string) {
    var n := |log|;
    && from < n && log[n - 1].outcome == Failed(message)
    && if TimedOut(log[n - 1]) then |log[n - 1].batch| <= 1
       else from < n - 1 && log[n - 2].batch == log[n - 1].batch && PlainlyFailed(log[n - 2])
  }

  /** What the attempts from `from` on say about the result for `items`. */
  ghost predicate Explains(world: World, log: seq<Attempt>, from: nat, items: seq<Item>, result: Result<map<string, string>>) {
    match result
    case Ok(texts) =>
      && from < |log| && log[|log| - 1].outcome.Translated? && texts.Keys == Keys(items)
      && forall key | key in texts :: Answered(world, key, texts[key], log, from)
    case Err(message) => GaveUp(log, from, message)
  }

  ghost predicate Extends(log': seq<Attempt>, log: seq<Attempt>) {
    |log| <= |log'| && log'[..|log|] == log
  }

  /** A stretch of the items, not empty unless there are none. */
  ghost predicate PartOf(part: seq<Item>, items: seq<Item>) {
    part == items || exists from, to | 0 <= from < to <= |items| :: part == items[from..to]
  }

  ghost predicate PartsOf(log: seq<Attempt>, from: nat, items: seq<Item>) {
    forall i | from <= i < |log| :: PartOf(log[i].batch, items)
  }

  /** The attempts made for `items`, after those of `log`: the batch itself comes first, and is the
      only one if it is answered; the others ask for parts of it. */
  ghost predicate Conducted(world: World, log': seq<Attempt>, log: seq<Attempt>, items: seq<Item>, result: Result<map<string, string>>) {
    && Extends(log', log) && |log| < |log'| && log'[|log|].batch == items
    && (log'[|log|].outcome.Translated? ==> |log'| == |log| + 1)
    && Reacts(log', |log|) && PartsOf(log', |log|, items)
    && Explains(world, log', |log|, items, result)
  }

  // ----- the translator -----

  /** The check of one reply, item by item, stopping at the first item without text. */
  method ReadReply(items: seq<Item>, reply: Reply) returns (outcome: Outcome)
    ensures Judges(outcome, items, reply)
    ensures outcome.Translated? <==> reply.Replied? && forall item | item in items ::
              item.key in reply.fields && reply.fields[item.key].TextField? && Trim(reply.fields[item.key].value) != ""
  {
    if !reply.Replied? {
      return Failed(reply.message);
    }
    var translated: map<string, string> := map[];
    for i := 0 to |items|
      invariant forall k | 0 <= k < i :: HasText(reply.fields, items[k].key)
      invariant translated.Keys == Keys(items[..i])
      invariant forall key | key in translated :: HasText(reply.fields, key) && translated[key] == reply.fields[key].value
    {
      var key := items[i].key;
      assert items[..i + 1] == items[..i] + [items[i]];
      if !HasText(reply.fields, key) {
        assert FirstMissing(reply.fields, items, i);
        return Failed("missing translation for " + key);
      }
      translated := translated[key := reply.fields[key].value];
    }
    assert items[..|items|] == items;
    return Translated(translated);
  }

  /** One attempt: get a client, starting one if there is none, prompt it, check the reply,
      and drop the client unless all went well. */
  method Try(world: World, items: seq<Item>, conn: Connection, log: seq<Attempt>)
    returns (outcome: Outcome, conn': Connection, log': seq<Attempt>)
    requires Consistent(conn, log) && Truthful(world, log)
    ensures Consistent(conn', log') && Truthful(world, log')
    ensures |log'| == |log| + 1 && Extends(log', log) && Prompts(log') <= Prompts(log) + 1
    ensures log'[|log|].batch == items && log'[|log|].outcome == outcome
  {
    var client, next := conn.client, conn.next;
    if client == None {
      var failure := world.spawn(|log|);
      if failure.Some? {
        Recorded(world, conn, log, Attempt(items, None, Failed(failure.value)), next);
        return Failed(failure.value), conn, log + [Attempt(items, None, Failed(failure.value))];
      }
      client, next := Some(next), next + 1;
    }
    outcome := ReadReply(items, world.reply(|log|));
    Recorded(world, conn, log, Attempt(items, client, outcome), next);
    conn' := Connection(if outcome.Failed? then None else client, next);
    log' := log + [Attempt(items, client, outcome)];
  }

  /** The attempt goes on the client the connection holds, or on a new one if one can be started. */
  ghost predicate OnClientOf(world: World, conn: Connection, a: Attempt, i: nat, next: nat) {
    && conn.next <= next
    && (conn.client.Some? ==> a.client == conn.client)
    && (conn.client.None? ==> (a.client.Some? <==> world.spawn(i).None?) && (a.client.Some? ==> conn.next <= a.client.value < next))
  }

  /** One more attempt that is what the environment answered keeps the log true and the connection fit. */
  lemma Recorded(world: World, conn: Connection, log: seq<Attempt>, a: Attempt, next: nat)
    requires Consistent(conn, log) && Truthful(world, log)
    requires TruthfulEntry(world, a, |log|) && OnClientOf(world, conn, a, |log|, next)
    ensures Truthful(world, log + [a])
    ensures Consistent(Connection(if a.outcome.Failed? then None else a.client, next), log + [a])
    ensures Extends(log + [a], log) && Prompts(log + [a]) <= Prompts(log) + 1
  {
    OneMoreAttempt(world, log, a);
    StaysConsistent(world, conn, log, a, next);
    assert (log + [a])[..|log|] == log;
  }

  lemma StaysConsistent(world: World, conn: Connection, log: seq<Attempt>, a: Attempt, next: nat)
    requires Consistent(conn, log) && OnClientOf(world, conn, a, |log|, next)
    ensures Consistent(Connection(if a.outcome.Failed? then None else a.client, next), log + [a])
  {
  }

  lemma OneMoreAttempt(world: World, log: seq<Attempt>, a: Attempt)
    requires Truthful(world, log) && TruthfulEntry(world, a, |log|) && OnRightClient(world, log + [a], |log|)
    ensures Truthful(world, log + [a])
  {
    var log' := log + [a];
    forall i | 0 <= i < |log'| ensures TruthfulEntry(world, log'[i], i) && OnRightClient(world, log', i) {
      if i < |log| {
        assert OnRightClient(world, log, i);
      }
    }
  }

  method TranslateBatch(world: World, items: seq<Item>, conn: Connection, log: seq<Attempt>)
    returns (result: Result<map<string, string>>, conn': Connection, log': seq<Attempt>)
    requires Consistent(conn, log) && Truthful(world, log)
    ensures Consistent(conn', log') && Truthful(world, log')
    ensures Conducted(world, log', log, items, result)
    ensures Prompts(log') <= Prompts(log) + PromptBound(|items|)
    decreases |items|, 1
  {
    conn', log' := conn, log;
    var lastError := "translation failed";
    for attempt := 0 to TRANSLATE_MAX_ATTEMPTS
      invariant Consistent(conn', log') && Truthful(world, log')
      invariant Retrying(log', log, items, attempt, lastError)
    {
      ghost var failures := log';
      var outcome;
      outcome, conn', log' := Try(world, items, conn', log');
      if outcome.Translated? {
        Answers(world, log', failures, log, items, outcome);
        return Ok(outcome.texts), conn', log';
      }
      if IsPromptTimeout(outcome.message) {
        if |items| > 1 {
          ghost var attempts := log';
          result, conn', log' := Split(world, items, conn', log');
          AfterTimeout(world, log', attempts, failures, log, items, result);
          return;
        }
        TimedOutAlone(world, log', failures, log, items, outcome.message);
        return Err(outcome.message), conn', log';
      }
      RetryNext(log', failures, log, items, attempt, lastError, outcome.message);
      lastError := outcome.message;
    }
    TwiceFailed(world, log', log, items, lastError);
    result := Err(lastError);
  }

  method Split(world: World, items: seq<Item>, conn: Connection, log: seq<Attempt>)
    returns (result: Result<map<string, string>>, conn': Connection, log': seq<Attempt>)
    requires |items| > 1 && Consistent(conn, log) && Truthful(world, log)
    ensures Consistent(conn', log') && Truthful(world, log')
    ensures Extends(log', log) && |log| < |log'| && log'[|log|].batch == FirstHalf(items)
    ensures Reacts(log', |log|) && PartsOf(log', |log|, items) && Explains(world, log', |log|, items, result)
    ensures Prompts(log') <= Prompts(log) + 4 * |items| - 4
    decreases |items|, 0
  {
    var midpoint := (|items| + 1) / 2;
    var left, connL, logL := TranslateBatch(world, items[..midpoint], conn, log);
    assert items[..midpoint] == items[0..midpoint] && items[midpoint..] == items[midpoint..|items|];
    PartsOfPart(logL, |log|, items, 0, midpoint);
    if left.Err? {
      return left, connL, logL;
    }
    var right;
    right, conn', log' := TranslateBatch(world, items[midpoint..], connL, logL);
    result := if right.Err? then right else Ok(left.value + right.value);
    PartsOfPart(log', |logL|, items, midpoint, |items|);
    JoinParts(log', logL, log, items);
    JoinReactions(world, log', logL, log, items[..midpoint], left);
    JoinHalves(world, log', logL, |log|, items, midpoint, left, right);
  }

  // ----- the steps of the retry loop -----

  predicate PlainFailure(a: Attempt, items: seq<Item>) {
    a.batch == items && PlainlyFailed(a)
  }

  /** The attempts so far failed plainly on the whole batch. */
  ghost predicate Retrying(log': seq<Attempt>, log: seq<Attempt>, items: seq<Item>, attempts: nat, lastError: string) {
    && Extends(log', log) && |log'| == |log| + attempts
    && (forall i | |log| <= i < |log'| :: PlainFailure(log'[i], items))
    && (attempts > 0 ==> log'[|log'| - 1].outcome == Failed(lastError))
    && Prompts(log') <= Prompts(log) + attempts
  }

  lemma Prefix(log': seq<Attempt>, middle: seq<Attempt>, log: seq<Attempt>)
    requires Extends(log', middle) && Extends(middle, log)
    ensures Extends(log', log) && forall i | 0 <= i < |middle| :: log'[i] == middle[i]
  {
    assert log'[..|log|] == middle[..|log|];
  }

  lemma RetryNext(log': seq<Attempt>, failures: seq<Attempt>, log: seq<Attempt>, items: seq<Item>, attempts: nat, lastError: string, message: string)
    requires Retrying(failures, log, items, attempts, lastError)
    requires Extends(log', failures) && |log'| == |failures| + 1 && Prompts(log') <= Prompts(failures) + 1
    requires log'[|failures|].batch == items && log'[|failures|].outcome == Failed(message) && !IsPromptTimeout(message)
    ensures Retrying(log', log, items, attempts + 1, message)
  {
    Prefix(log', failures, log);
  }

  /** The attempts before the last one failed plainly, so each was followed by the same batch again. */
  lemma FailuresReact(log': seq<Attempt>, failures: seq<Attempt>, log: seq<Attempt>, items: seq<Item>)
    requires Extends(log', failures) && Extends(failures, log) && |failures| < |log'|
    requires forall i | |log| <= i < |failures| :: PlainFailure(failures[i], items)
    requires log'[|failures|].batch == items
    ensures Extends(log', log) && log'[|log|].batch == items
    ensures forall i | |log| <= i < |failures| :: ReactsAt(log', i) && !log'[i].outcome.Translated?
    ensures forall i | |log| <= i <= |failures| :: log'[i].batch == items
  {
    Prefix(log', failures, log);
  }

  lemma Answers(world: World, log': seq<Attempt>, failures: seq<Attempt>, log: seq<Attempt>, items: seq<Item>, outcome: Outcome)
    requires Extends(log', failures) && Extends(failures, log) && |log'| == |failures| + 1
    requires forall i | |log| <= i < |failures| :: PlainFailure(failures[i], items)
    requires Truthful(world, log') && log'[|failures|].batch == items && log'[|failures|].outcome == outcome && outcome.Translated?
    ensures Conducted(world, log', log, items, Ok(outcome.texts))
  {
    FailuresReact(log', failures, log, items);
    forall i | |log| <= i < |log'| ensures ReactsAt(log', i) {
      assert i == |failures| ==> log'[i].outcome.Translated?;
    }
    forall key | key in outcome.texts ensures Answered(world, key, outcome.texts[key], log', |log|) {
      AnsweredHere(world, log', |failures|, key);
    }
    KeysAnswered(world, log', |failures|);
  }

  lemma AnsweredHere(world: World, log: seq<Attempt>, i: nat, key: string)
    requires Truthful(world, log) && i < |log| && log[i].outcome.Translated? && key in log[i].outcome.texts
    ensures AnsweredBy(world, key, log[i].outcome.texts[key], log[i], i)
  {
    assert TruthfulEntry(world, log[i], i);
  }

  lemma KeysAnswered(world: World, log: seq<Attempt>, i: nat)
    requires Truthful(world, log) && i < |log| && log[i].outcome.Translated?
    ensures log[i].outcome.texts.Keys == Keys(log[i].batch)
  {
    assert TruthfulEntry(world, log[i], i);
  }

  lemma TimedOutAlone(world: World, log': seq<Attempt>, failures: seq<Attempt>, log: seq<Attempt>, items: seq<Item>, message: string)
    requires Extends(log', failures) && Extends(failures, log) && |log'| == |failures| + 1 && |items| <= 1
    requires forall i | |log| <= i < |failures| :: PlainFailure(failures[i], items)
    requires log'[|failures|].batch == items && log'[|failures|].outcome == Failed(message) && IsPromptTimeout(message)
    ensures Conducted(world, log', log, items, Err(message))
  {
    FailuresReact(log', failures, log, items);
  }

  lemma TwiceFailed(world: World, log': seq<Attempt>, log: seq<Attempt>, items: seq<Item>, lastError: string)
    requires Retrying(log', log, items, 2, lastError)
    ensures Conducted(world, log', log, items, Err(lastError))
  {
  }

  lemma AfterTimeout(world: World, log': seq<Attempt>, attempts: seq<Attempt>, failures: seq<Attempt>, log: seq<Attempt>,
                     items: seq<Item>, result: Result<map<string, string>>)
    requires |items| > 1 && Extends(log', attempts) && |attempts| < |log'|
    requires Extends(attempts, failures) && Extends(failures, log) && |attempts| == |failures| + 1
    requires forall i | |log| <= i < |failures| :: PlainFailure(failures[i], items)
    requires attempts[|failures|].batch == items && TimedOut(attempts[|failures|]) && log'[|attempts|].batch == FirstHalf(items)
    requires Reacts(log', |attempts|) && PartsOf(log', |attempts|, items) && Explains(world, log', |attempts|, items, result)
    ensures Conducted(world, log', log, items, result)
  {
    Prefix(log', attempts, failures);
    FailuresReact(log', failures, log, items);
    forall i | |log| <= i < |log'| ensures ReactsAt(log', i) {
      assert i == |failures| ==> log'[i] == attempts[i];
    }
    EarlierStart(world, log', |attempts|, |log|, items, result);
  }

  lemma EarlierStart(world: World, log: seq<Attempt>, from: nat, earlier: nat, items: seq<Item>, result: Result<map<string, string>>)
    requires Explains(world, log, from, items, result) && earlier <= from
    ensures Explains(world, log, earlier, items, result)
  {
    if result.Ok? {
      forall key | key in result.value ensures Answered(world, key, result.value[key], log, earlier) {
        assert Answered(world, key, result.value[key], log, from);
      }
    }
  }

  lemma PartsOfPart(log: seq<Attempt>, from: nat, items: seq<Item>, first: nat, end: nat)
    requires first < end <= |items| && PartsOf(log, from, items[first..end])
    ensures PartsOf(log, from, items)
  {
    forall i | from <= i < |log| ensures PartOf(log[i].batch, items) {
      assert PartOf(log[i].batch, items[first..end]);
      if log[i].batch != items[first..end] {
        var a, b :| 0 <= a < b <= end - first && log[i].batch == items[first..end][a..b];
        var part, whole := items[first..end][a..b], items[first + a..first + b];
        assert |part| == |whole| && forall k | 0 <= k < |part| :: part[k] == items[first + a + k];
        assert part == whole;
      }
    }
  }

  lemma JoinParts(log': seq<Attempt>, middle: seq<Attempt>, log: seq<Attempt>, items: seq<Item>)
    requires Extends(log', middle) && |log| <= |middle|
    requires PartsOf(middle, |log|, items) && PartsOf(log', |middle|, items)
    ensures PartsOf(log', |log|, items)
  {
    forall i | |log| <= i < |log'| ensures PartOf(log'[i].batch, items) {
      assert i < |middle| ==> log'[i] == middle[i] && PartOf(middle[i].batch, items);
    }
  }

  lemma JoinReactions(world: World, log': seq<Attempt>, middle: seq<Attempt>, log: seq<Attempt>, items: seq<Item>, left: Result<map<string, string>>)
    requires Extends(log', middle) && Extends(middle, log)
    requires Explains(world, middle, |log|, items, left) && left.Ok?
    requires Reacts(middle, |log|) && Reacts(log', |middle|)
    ensures Extends(log', log) && Reacts(log', |log|)
  {
    Prefix(log', middle, log);
    forall i | |log| <= i < |log'| ensures ReactsAt(log', i) {
      if i < |middle| {
        assert ReactsAt(middle, i);
      }
    }
  }

  lemma JoinHalves(world: World, log': seq<Attempt>, log: seq<Attempt>, from: nat, items: seq<Item>, midpoint: nat,
                   left: Result<map<string, string>>, right: Result<map<string, string>>)
    requires Extends(log', log) && from <= |log| && midpoint <= |items|
    requires left.Ok? && Explains(world, log, from, items[..midpoint], left)
    requires Explains(world, log', |log|, items[midpoint..], right)
    ensures Explains(world, log', from, items, if right.Err? then right else Ok(left.value + right.value))
  {
    if right.Ok? {
      var texts := left.value + right.value;
      assert items == items[..midpoint] + items[midpoint..];
      forall key | key in texts ensures Answered(world, key, texts[key], log', from) {
        if key in right.value {
          assert Answered(world, key, texts[key], log', |log|);
        } else {
          assert Answered(world, key, texts[key], log, from);
          var i :| from <= i < |log| && AnsweredBy(world, key, texts[key], log[i], i);
          assert log'[i] == log[i];
        }
      }
    }
  }

  // ----- timeouts are told by their text -----

  /** A message is a timeout exactly when the words stand in it, in letters of any case. */
  lemma TimeoutExactly(message: string)
    ensures IsPromptTimeout(message) <==> exists before, words, after :: message == before + words + after && Lower(words) == "timed out"
  {
    FoundInAnyCase(message, "timed out");
  }

  /** The client's own deadline error is a timeout. */
  lemma DeadlineErrorIsTimeout(prompt: string, rest: string)
    ensures IsPromptTimeout(prompt + ": translation prompt timed out after " + rest)
  {
    TimeoutExactly(prompt + ": translation prompt timed out after " + rest);
    var before, after := prompt + ": translation prompt ", " after " + rest;
    assert Lower("timed out") == "timed out";
    assert prompt + ": translation prompt timed out after " + rest == before + "timed out" + after;
  }

  /** A missing translation of a key whose name holds the words counts as a timeout. */
  lemma MissingKeyAsTimeout(key: string)
    requires exists before, words, after :: key == before + words + after && Lower(words) == "timed out"
    ensures IsPromptTimeout("missing translation for " + key)
  {
    var before, words, after :| key == before + words + after && Lower(words) == "timed out";
    var prefix := "missing translation for ";
    assert prefix + key == prefix + before + words + after;
    TimeoutExactly(prefix + key);
  }

  /** What a first prompt that is rejected leads to: over a timeout, the larger or equal first half of several items;
      over anything else, the same items again. */
  lemma RejectedFirstPrompt(world: World, log': seq<Attempt>, log: seq<Attempt>, items: seq<Item>, result: Result<map<string, string>>, message: string)
    requires Conducted(world, log', log, items, result) && Truthful(world, log')
    requires log'[|log|].client.Some? && world.reply(|log|) == Rejected(message)
    ensures (exists before, words, after :: message == before + words + after && Lower(words) == "timed out") ==>
              if |items| > 1 then |log'| > |log| + 1 && log'[|log| + 1].batch == items[..(|items| + 1) / 2]
              else |log'| == |log| + 1 && result == Err(message)
    ensures !(exists before, words, after :: message == before + words + after && Lower(words) == "timed out") ==>
              |log'| > |log| + 1 && log'[|log| + 1].batch == items
  {
    TimeoutExactly(message);
    assert TruthfulEntry(world, log'[|log|], |log|);
    assert ReactsAt(log', |log|);
    LastAttempt(world, log', log, items, result);
  }

  /** The attempts end with the first failure only if it is a timeout of one item. */
  lemma LastAttempt(world: World, log': seq<Attempt>, log: seq<Attempt>, items: seq<Item>, result: Result<map<string, string>>)
    requires Conducted(world, log', log, items, result) && log'[|log|].outcome.Failed?
    ensures |log'| == |log| + 1 ==> TimedOut(log'[|log|]) && |items| <= 1
  {
  }
}
