/** The client together with a pi process that sends one agent_end per received
    request, in request order. agent_end names no request, so which reply a
    prompt takes depends on what was still outstanding when it started. */
module PiSession {
  import opened Text
  import opened PiRpc
  import opened BatchTranslator

  /** `inbox` holds the received requests whose agent_end is still to come;
      `outstanding[i]` is what `inbox` was when call i had its turn. */
  datatype Session = Session(client: Client, inbox: seq<nat>, outstanding: seq<seq<nat>>)

  /** A turn may lose its request to a write error; every other event is free. */
  datatype Action = Do(event: Event) | Turn(delivered: bool) | NextEnd(messages: seq<Message>)

  const NEW := Session(FRESH, [], [])

  predicate Possible(s: Session, a: Action) {
    match a
    case Do(e) => !e.Start? && !(e.Stdout? && e.line.AgentEnd?) && Enabled(s.client, e)
    case Turn(_) => Enabled(s.client, Start)
    case NextEnd(_) => s.inbox != []
  }

  function Act(s: Session, a: Action): Session
    requires Possible(s, a)
  {
    match a
    case Do(e) => s.(client := Step(s.client, e))
    case Turn(delivered) =>
      Session(Step(s.client, Start),
              if delivered && !s.client.closed then s.inbox + [s.client.requestCount + 1] else s.inbox,
              s.outstanding + [s.inbox])
    case NextEnd(messages) =>
      s.(client := OnLine(s.client, AgentEnd(messages, s.inbox[0])), inbox := s.inbox[1..])
  }

  function Play(s: Session, actions: seq<Action>): Session {
    if actions == [] then s
    else
      var before := Play(s, actions[..|actions| - 1]);
      var a := actions[|actions| - 1];
      if Possible(before, a) then Act(before, a) else before
  }

  predicate IsResolved(p: Prompt) {
    p.phase.Settled? && p.phase.how.Resolved?
  }

  ghost predicate ResolvedBefore(c: Client, i: nat)
    requires i <= |c.prompts|
  {
    forall k | 0 <= k < i :: IsResolved(c.prompts[k])
  }

  /** The reply a resolved prompt took is its own exactly when nothing was outstanding. */
  predicate Attributed(s: Session, i: nat)
    requires i < |s.client.prompts| && i < |s.outstanding|
  {
    var p := s.client.prompts[i];
    IsResolved(p) ==> (p.phase.how.of == p.id <==> s.outstanding[i] == [])
  }

  ghost predicate Coherent(s: Session) {
    var c := s.client;
    && Sound(c)
    && |s.outstanding| == c.started
    && (forall k | 0 <= k < |s.inbox| :: s.inbox[k] <= c.requestCount)
    && (forall i | 0 <= i < c.started :: Attributed(s, i))
    && (forall i | 0 <= i < c.started && ResolvedBefore(c, i) :: s.outstanding[i] == [])
    && (ResolvedBefore(c, c.started) ==> s.inbox == [])
    && (c.pending.Some? ==>
          var before, id := s.outstanding[c.started - 1], c.pending.value.id;
          && (s.inbox == before || s.inbox == before + [id])
          && (forall k | 0 <= k < |before| :: before[k] < id))
  }

  /** Only settling the pending prompt can resolve anything, and nothing else is touched. */
  lemma StepFrame(c: Client, e: Event)
    requires Sound(c) && Enabled(c, e) && !(e.Stdout? && e.line.AgentEnd?)
    ensures var c' := Step(c, e);
            && |c.prompts| <= |c'.prompts|
            && (c'.pending.Some? && !e.Start? ==> c.pending.Some? && c'.pending.value.id == c.pending.value.id)
            && (forall i | 0 <= i < |c.prompts| :: IsResolved(c'.prompts[i]) <==> IsResolved(c.prompts[i]))
            && (forall i | 0 <= i < |c.prompts| && IsResolved(c.prompts[i]) :: c'.prompts[i] == c.prompts[i])
  {
    if e.Start? {
      assert PromptSound(c, c.started);
    }
    var c' := Step(c, e);
    forall i | 0 <= i < |c.prompts| ensures IsResolved(c.prompts[i]) ==> c'.prompts[i] == c.prompts[i] {
      assert PromptSound(c, i);
    }
    assert forall i | 0 <= i < |c.prompts| :: PromptSound(c, i);
  }

  lemma DoKeepsCoherent(s: Session, e: Event)
    requires Coherent(s) && Possible(s, Do(e))
    ensures Coherent(Act(s, Do(e)))
  {
    var c, c' := s.client, Step(s.client, e);
    StepKeepsSound(c, e);
    StepFrame(c, e);
    var s' := Act(s, Do(e));
    forall i | 0 <= i < c'.started ensures Attributed(s', i) {
      assert Attributed(s, i);
    }
    DoResolvesNothing(c, e);
  }

  lemma DoResolvesNothing(c: Client, e: Event)
    requires Sound(c) && Enabled(c, e) && !(e.Stdout? && e.line.AgentEnd?) && !e.Start?
    ensures var c' := Step(c, e);
            c'.started == c.started && forall i | 0 <= i <= c.started && ResolvedBefore(c', i) :: ResolvedBefore(c, i)
  {
    StepFrame(c, e);
    var c' := Step(c, e);
    forall i | 0 <= i <= c'.started && ResolvedBefore(c', i) ensures ResolvedBefore(c, i) {
      assert forall k | 0 <= k < i :: IsResolved(c'.prompts[k]);
    }
  }

  lemma TurnKeepsCoherent(s: Session, delivered: bool)
    requires Coherent(s) && Possible(s, Turn(delivered))
    ensures Coherent(Act(s, Turn(delivered)))
  {
    var c, c' := s.client, Step(s.client, Start);
    StepKeepsSound(c, Start);
    StepFrame(c, Start);
    assert PromptSound(c, c.started);
    assert !IsResolved(c'.prompts[c.started]);
    var s' := Act(s, Turn(delivered));
    forall i | 0 <= i < c'.started ensures Attributed(s', i) {
      if i < c.started {
        assert Attributed(s, i);
      }
    }
    forall i | 0 <= i < c'.started && ResolvedBefore(c', i) ensures s'.outstanding[i] == [] {
      assert forall k | 0 <= k < i :: IsResolved(c'.prompts[k]);
      assert ResolvedBefore(c, i);
    }
    if c.started > 0 {
      assert PromptSound(c, c.started - 1);
    }
  }

  /** An agent_end settles the last prompt started, so it resolves nothing before that one. */
  lemma EndSettlesLast(c: Client, messages: seq<Message>, of: nat)
    requires Sound(c) && c.pending.Some?
    ensures var c' := OnLine(c, AgentEnd(messages, of)); var owner := c.pending.value.owner;
            && c'.started == c.started == owner + 1 && |c'.prompts| == |c.prompts|
            && forall i | 0 <= i <= c'.started && ResolvedBefore(c', i) :: ResolvedBefore(c, if i < c.started then i else owner)
  {
    var c', owner := OnLine(c, AgentEnd(messages, of)), c.pending.value.owner;
    forall i | 0 <= i <= c'.started && ResolvedBefore(c', i) ensures ResolvedBefore(c, if i < c.started then i else owner) {
      assert forall k | 0 <= k < i :: IsResolved(c'.prompts[k]);
      assert forall k | 0 <= k < owner :: c'.prompts[k] == c.prompts[k];
    }
  }

  lemma EndKeepsCoherent(s: Session, messages: seq<Message>)
    requires Coherent(s) && Possible(s, NextEnd(messages))
    ensures Coherent(Act(s, NextEnd(messages)))
  {
    var c, s' := s.client, Act(s, NextEnd(messages));
    var c' := s'.client;
    StepKeepsSound(c, Stdout(AgentEnd(messages, s.inbox[0])));
    assert forall k | 0 <= k < |s'.inbox| :: s'.inbox[k] == s.inbox[k + 1];
    if c.pending.Some? {
      var owner := c.pending.value.owner;
      assert PromptSound(c, owner);
      forall i | 0 <= i < c'.started ensures Attributed(s', i) {
        assert Attributed(s, i);
      }
      EndSettlesLast(c, messages, s.inbox[0]);
    } else {
      assert c' == c;
      assert forall i | 0 <= i < c.started :: Attributed(s, i) ==> Attributed(s', i);
    }
  }

  lemma {:induction false} EverySessionCoherent(actions: seq<Action>)
    ensures Coherent(Play(NEW, actions))
  {
    if actions == [] {
    } else {
      EverySessionCoherent(actions[..|actions| - 1]);
      var before, a := Play(NEW, actions[..|actions| - 1]), actions[|actions| - 1];
      if Possible(before, a) {
        match a
        case Do(e) => DoKeepsCoherent(before, e);
        case Turn(delivered) => TurnKeepsCoherent(before, delivered);
        case NextEnd(messages) => EndKeepsCoherent(before, messages);
      }
    }
  }

  /** In every run, a resolved prompt carries the agent_end of its own request exactly when
      no agent_end was outstanding at its start; and none was if every earlier call resolved. */
  lemma RepliesAttributed(actions: seq<Action>, i: nat)
    requires var s := Play(NEW, actions); i < |s.client.prompts| && IsResolved(s.client.prompts[i])
    ensures var s := Play(NEW, actions);
            && i < |s.outstanding|
            && (s.client.prompts[i].phase.how.of == s.client.prompts[i].id <==> s.outstanding[i] == [])
            && (ResolvedBefore(s.client, i) ==> s.client.prompts[i].phase.how.of == s.client.prompts[i].id)
  {
    EverySessionCoherent(actions);
    var s := Play(NEW, actions);
    assert PromptSound(s.client, i);
    assert Attributed(s, i);
  }

  /** Without dropping the client, a failed prompt can pass its reply on to the next one. */
  lemma FailureCanMixReplies(text: string)
    ensures var late := [Assistant("", "", PlainText(text))];
            var s := Play(NEW, [Do(Call), Do(Call), Turn(true), Do(Stdout(Response(1, false, ""))), Turn(true), NextEnd(late)]);
            && |s.client.prompts| == 2
            && s.client.prompts[0].phase == Settled(Settlement.Rejected(PromptFailed("pi prompt failed")))
            && s.client.prompts[1].id == 2 && s.client.prompts[1].phase == Settled(Resolved(text, 1))
  {
    var late := [Assistant("", "", PlainText(text))];
    var two := [Do(Call), Do(Call)];
    PlayNext([], Do(Call));
    PlayNext([Do(Call)], Do(Call));
    assert [] + [Do(Call)] == [Do(Call)] && [Do(Call)] + [Do(Call)] == two;
    PlayNext(two, Turn(true));
    var s3 := Play(NEW, two + [Turn(true)]);
    assert s3.client == Client(false, Some(Pending(1, 0, false)), 1, [Prompt(1, Running, true, true), Prompt(0, Queued, false, false)], 1);
    var failed := two + [Turn(true)] + [Do(Stdout(Response(1, false, "")))];
    PlayNext(two + [Turn(true)], Do(Stdout(Response(1, false, ""))));
    assert Trim("") == "";
    PlayNext(failed, Turn(true));
    PlayNext(failed + [Turn(true)], NextEnd(late));
    assert failed + [Turn(true)] + [NextEnd(late)]
        == [Do(Call), Do(Call), Turn(true), Do(Stdout(Response(1, false, ""))), Turn(true), NextEnd(late)];
    assert Extracted(late) == Ok(text);
  }

  lemma PlayNext(actions: seq<Action>, a: Action)
    ensures var before := Play(NEW, actions);
            Play(NEW, actions + [a]) == if Possible(before, a) then Act(before, a) else before
  {
    assert (actions + [a])[..|actions|] == actions;
  }

  // ----- the translator as the caller -----

  /** The attempts made on one client, in order. */
  function OnClient(log: seq<Attempt>, client: nat): seq<Attempt> {
    if log == [] then []
    else OnClient(log[..|log| - 1], client)
         + if log[|log| - 1].client == Some(client) then [log[|log| - 1]] else []
  }

  ghost predicate DrawnFrom(mine: seq<Attempt>, log: seq<Attempt>, client: nat) {
    forall a | a in mine :: a in log && a.client == Some(client)
  }

  ghost predicate AllTranslated(attempts: seq<Attempt>) {
    forall a | a in attempts :: a.outcome.Translated?
  }

  lemma {:induction false} OnlyLastFails(log: seq<Attempt>, client: nat)
    requires DropsFailedClients(log)
    ensures var mine := OnClient(log, client);
            DrawnFrom(mine, log, client) && (mine != [] ==> AllTranslated(mine[..|mine| - 1]))
  {
    if log == [] {
    } else {
      var init, last := log[..|log| - 1], log[|log| - 1];
      OnlyLastFails(init, client);
      var mine := OnClient(init, client);
      if last.client == Some(client) {
        assert (mine + [last])[..|mine|] == mine;
        forall a | a in mine ensures a.outcome.Translated? {
          var i :| 0 <= i < |init| && init[i] == a;
          assert log[i] == a && log[|log| - 1] == last;
        }
      }
    }
  }

  /** The wire below the translator: what the session of each client went through, how the text of a
      reply is read, and the text of a rejection. */
  datatype Wire = Wire(sessions: nat -> seq<Action>, parse: string -> Reply, describe: Reason -> string)

  function Prompts(wire: Wire, client: nat): seq<Prompt> {
    Play(NEW, wire.sessions(client)).client.prompts
  }

  function ReplyOf(wire: Wire, p: Prompt): Reply
    requires p.phase.Settled?
  {
    match p.phase.how
    case Resolved(text, _) => wire.parse(text)
    case Rejected(reason) => Reply.Rejected(wire.describe(reason))
  }

  /** The reply to attempt `i` is how its prompt settled: the k-th prompt for the k-th attempt on a client. */
  ghost predicate Carries(world: World, wire: Wire, log: seq<Attempt>, i: nat)
    requires i < |log|
  {
    log[i].client.Some? ==>
      var prompts, k := Prompts(wire, log[i].client.value), |OnClient(log[..i], log[i].client.value)|;
      k < |prompts| && prompts[k].phase.Settled? && world.reply(i) == ReplyOf(wire, prompts[k])
  }

  /** Reading a text gives an object or fails; only the client rejects. */
  ghost predicate Carried(world: World, wire: Wire, log: seq<Attempt>) {
    && (forall i | 0 <= i < |log| :: Carries(world, wire, log, i))
    && forall text :: !wire.parse(text).Rejected?
  }

  /** The client's prompts are those of the attempts made on it, and possibly the one of an attempt under way. */
  ghost predicate OnlyAttempts(wire: Wire, conn: Connection, log: seq<Attempt>, client: nat) {
    |Prompts(wire, client)| <= |OnClient(log, client)| + if conn.client == Some(client) then 1 else 0
  }

  /** Where in the log the k-th attempt on a client is. */
  lemma {:induction false} AttemptAt(log: seq<Attempt>, client: nat, k: nat) returns (i: nat)
    requires k < |OnClient(log, client)|
    ensures i < |log| && log[i] == OnClient(log, client)[k] && log[i].client == Some(client) && |OnClient(log[..i], client)| == k
  {
    var n := |log| - 1;
    if k < |OnClient(log[..n], client)| {
      i := AttemptAt(log[..n], client, k);
      assert log[..n][..i] == log[..i];
    } else {
      i := n;
    }
  }

  /** An attempt that was accepted had its prompt resolved. */
  lemma AcceptedIsResolved(world: World, wire: Wire, log: seq<Attempt>, client: nat, k: nat)
    requires Truthful(world, log) && Carried(world, wire, log)
    requires k < |OnClient(log, client)| && OnClient(log, client)[k].outcome.Translated?
    ensures k < |Prompts(wire, client)| && IsResolved(Prompts(wire, client)[k])
  {
    var i := AttemptAt(log, client, k);
    assert Carries(world, wire, log, i) && TruthfulEntry(world, log[i], i);
  }

  /** Before each prompt of a client, all attempts on it were accepted. */
  lemma EarlierAccepted(wire: Wire, conn: Connection, log: seq<Attempt>, client: nat, i: nat)
    requires Consistent(conn, log) && OnlyAttempts(wire, conn, log, client) && i < |Prompts(wire, client)|
    ensures i <= |OnClient(log, client)| && forall k | 0 <= k < i :: OnClient(log, client)[k].outcome.Translated?
  {
    var mine := OnClient(log, client);
    OnlyLastFails(log, client);
    forall k | 0 <= k < i ensures mine[k].outcome.Translated? {
      if i < |mine| {
        assert mine[k] in mine[..|mine| - 1];
      } else {
        var j := AttemptAt(log, client, k);
      }
    }
  }

  /** The translator drops its client after every failed attempt. So on each client it used, at every moment,
      every resolved prompt carries the agent_end of its own request. */
  lemma TranslatorNeverMixesReplies(world: World, wire: Wire, conn: Connection, log: seq<Attempt>, client: nat, i: nat)
    requires Consistent(conn, log) && Truthful(world, log) && Carried(world, wire, log)
    requires OnlyAttempts(wire, conn, log, client)
    requires i < |Prompts(wire, client)| && IsResolved(Prompts(wire, client)[i])
    ensures Prompts(wire, client)[i].phase.how.of == Prompts(wire, client)[i].id
  {
    EarlierAccepted(wire, conn, log, client, i);
    forall k | 0 <= k < i ensures IsResolved(Prompts(wire, client)[k]) {
      AcceptedIsResolved(world, wire, log, client, k);
    }
    RepliesAttributed(wire.sessions(client), i);
  }
}
