/** The RPC client over one pi child process: prompts run one at a time, each
    under a deadline timer, and are settled by output lines, write errors,
    process events or the deadline, whichever comes first. */
module PiRpc {
  import opened Text

  // ----- the reply carried by agent_end -----

  datatype Block = Block(kind: string, text: Option<string>) | NotABlock

  datatype Content = PlainText(text: string) | Blocks(blocks: seq<Block>) | NoContent

  datatype Message = Assistant(errorMessage: string, stopReason: string, content: Content) | OtherMessage

  /** An assistant message decides unless it is sound but carries no readable content. */
  predicate Decides(m: Message) {
    m.Assistant? && (m.errorMessage != "" || m.stopReason == "error" || !m.content.NoContent?)
  }

  function BlocksText(blocks: seq<Block>): string {
    if blocks == [] then ""
    else (if blocks[0].Block? && blocks[0].kind == "text" && blocks[0].text.Some? then blocks[0].text.value else "")
         + BlocksText(blocks[1..])
  }

  function Verdict(m: Message): Result<string>
    requires Decides(m)
  {
    if m.errorMessage != "" || m.stopReason == "error" then
      Err(if Trim(m.errorMessage) != "" then Trim(m.errorMessage) else "pi error")
    else if m.content.PlainText? then Ok(m.content.text)
    else Ok(BlocksText(m.content.blocks))
  }

  function Extracted(messages: seq<Message>): Result<string> {
    if messages == [] then Err("assistant translation not found")
    else if Decides(messages[|messages| - 1]) then Verdict(messages[|messages| - 1])
    else Extracted(messages[..|messages| - 1])
  }

  method ExtractTranslationResult(messages: seq<Message>) returns (result: Result<string>)
    ensures result == Extracted(messages)
    ensures forall i | 0 <= i < |messages| && Decides(messages[i]) ::
              (forall k | i < k < |messages| :: !Decides(messages[k])) ==> result == Verdict(messages[i])
    ensures (forall m | m in messages :: !Decides(m)) ==> result == Err("assistant translation not found")
  {
    var index := |messages|;
    assert messages[..index] == messages;
    while index > 0
      invariant 0 <= index <= |messages|
      invariant forall k | index <= k < |messages| :: !Decides(messages[k])
      invariant Extracted(messages[..index]) == Extracted(messages)
    {
      index := index - 1;
      assert messages[..index + 1][..index] == messages[..index];
      if Decides(messages[index]) {
        return Verdict(messages[index]);
      }
    }
    return Err("assistant translation not found");
  }

  // ----- the client as a state machine -----

  datatype Reason =
    | Unavailable | TimedOut | WriteFailed | ProcessFailed | ProcessClosed
    | PromptFailed(text: string) | BadReply(text: string)

  /** `of` is the number of the request whose agent_end was taken; the wire does not carry it. */
  datatype Settlement = Resolved(text: string, of: nat) | Rejected(reason: Reason)

  datatype Phase = Queued | Running | Settled(how: Settlement)

  /** One call of prompt: its request number (0 before it is sent) and its two timers. */
  datatype Prompt = Prompt(id: nat, phase: Phase, deadline: bool, heartbeat: bool)

  datatype Pending = Pending(id: nat, owner: nat, responseReceived: bool)

  /** `started` counts the calls whose turn in the promise chain has come. */
  datatype Client = Client(closed: bool, pending: Option<Pending>, requestCount: nat, prompts: seq<Prompt>, started: nat)

  datatype Line =
    | Noise
    | Response(id: nat, success: bool, error: string)
    | AgentEnd(messages: seq<Message>, of: nat)

  datatype Event =
    | Call | Start | Stdout(line: Line) | WriteError(owner: nat) | Deadline(owner: nat)
    | ProcessError | ProcessClose | Close

  const FRESH := Client(false, None, 0, [], 0)

  /** What the event loop guarantees: a turn comes once the previous call has settled,
      and only an armed timer fires. */
  predicate Enabled(c: Client, e: Event) {
    match e
    case Start => c.started < |c.prompts| && (c.started == 0 || (c.started <= |c.prompts| && c.prompts[c.started - 1].phase.Settled?))
    case WriteError(owner) => owner < c.started && owner < |c.prompts| && c.prompts[owner].id > 0
    case Deadline(owner) => owner < |c.prompts| && c.prompts[owner].deadline
    case _ => true
  }

  /** Timers off, and the promise settled unless it already was. */
  function Finish(p: Prompt, how: Settlement): Prompt {
    Prompt(p.id, if p.phase.Settled? then p.phase else Settled(how), false, false)
  }

  function FinishPending(c: Client, how: Settlement): Client {
    match c.pending
    case None => c
    case Some(p) =>
      if p.owner < |c.prompts| then c.(pending := None, prompts := c.prompts[p.owner := Finish(c.prompts[p.owner], how)])
      else c.(pending := None)
  }

  function OnLine(c: Client, line: Line): Client {
    if c.pending.None? then c
    else match line
      case Noise => c
      case Response(id, success, error) =>
        if id != c.pending.value.id then c
        else if !success then
          FinishPending(c, Rejected(PromptFailed(if Trim(error) != "" then Trim(error) else "pi prompt failed")))
        else c.(pending := Some(c.pending.value.(responseReceived := true)))
      case AgentEnd(messages, of) =>
        FinishPending(c, match Extracted(messages)
                         case Ok(text) => Resolved(text, of)
                         case Err(message) => Rejected(BadReply(message)))
  }

  function Step(c: Client, e: Event): Client
    requires Enabled(c, e)
  {
    match e
    case Call => c.(prompts := c.prompts + [Prompt(0, Queued, false, false)])
    case Start =>
      var i := c.started;
      if c.closed then
        c.(started := i + 1, prompts := c.prompts[i := Finish(c.prompts[i], Rejected(Unavailable))])
      else
        var id := c.requestCount + 1;
        c.(started := i + 1, requestCount := id, pending := Some(Pending(id, i, false)),
           prompts := c.prompts[i := Prompt(id, Running, true, true)])
    case Stdout(line) => OnLine(c, line)
    case WriteError(owner) =>
      var prompts := c.prompts[owner := Finish(c.prompts[owner], Rejected(WriteFailed))];
      if c.pending.Some? && c.pending.value.id == c.prompts[owner].id
      then c.(prompts := prompts, pending := None) else c.(prompts := prompts)
    case Deadline(owner) =>
      if c.pending.Some? && c.pending.value.id == c.prompts[owner].id then
        c.(pending := None, closed := true, prompts := c.prompts[owner := Finish(c.prompts[owner], Rejected(TimedOut))])
      else c.(prompts := c.prompts[owner := c.prompts[owner].(deadline := false)])
    case ProcessError => FinishPending(c, Rejected(ProcessFailed))
    case ProcessClose => FinishPending(c.(closed := true), Rejected(ProcessClosed))
    case Close => c.(closed := true)
  }

  function Run(c: Client, events: seq<Event>): Client {
    if events == [] then c
    else
      var before := Run(c, events[..|events| - 1]);
      var e := events[|events| - 1];
      if Enabled(before, e) then Step(before, e) else before
  }

  // ----- what every run keeps -----

  /** Calls before `started` are settled except possibly the last one, which is then the
      one pending request; later calls are queued; only the pending request has timers. */
  ghost predicate Sound(c: Client) {
    && c.started <= |c.prompts|
    && (forall i | 0 <= i < |c.prompts| :: PromptSound(c, i))
    && (c.pending.Some? ==>
          var p := c.pending.value;
          p.owner + 1 == c.started && p.id == c.prompts[p.owner].id == c.requestCount && p.id > 0)
    && (forall i, j | 0 <= i < j < c.started && c.prompts[i].id > 0 && c.prompts[j].id > 0 :: c.prompts[i].id < c.prompts[j].id)
  }

  ghost predicate PromptSound(c: Client, i: nat)
    requires i < |c.prompts|
  {
    var p := c.prompts[i];
    && p.id <= c.requestCount
    && if c.pending.Some? && c.pending.value.owner == i then p.phase.Running? && p.deadline && p.heartbeat
       else !p.deadline && !p.heartbeat && (if i < c.started then p.phase.Settled? else p.phase.Queued? && p.id == 0)
  }

  lemma StepKeepsSound(c: Client, e: Event)
    requires Sound(c) && Enabled(c, e)
    ensures Sound(Step(c, e))
  {
    if c.pending.Some? {
      OwnerById(c);
    }
    match e {
      case Call => CallKeepsSound(c);
      case Start => StartKeepsSound(c);
      case WriteError(owner) => FinishKeepsSound(c, owner, Rejected(WriteFailed), c.closed);
      case Deadline(owner) =>
        assert PromptSound(c, owner);
        FinishKeepsSound(c, owner, Rejected(TimedOut), true);
      case Close => FinishKeepsSound(c, 0, Rejected(TimedOut), true);
      case Stdout(line) =>
        if c.pending.Some? {
          LineKeepsSound(c, line);
        }
      case ProcessError =>
        if c.pending.Some? {
          FinishKeepsSound(c, c.pending.value.owner, Rejected(ProcessFailed), c.closed);
        }
      case ProcessClose =>
        FinishKeepsSound(c, if c.pending.Some? then c.pending.value.owner else 0, Rejected(ProcessClosed), true);
    }
  }

  lemma FinishKeepsSound(c: Client, owner: nat, how: Settlement, closed: bool)
    requires Sound(c)
    ensures Sound(c.(closed := closed))
    ensures owner < c.started ==>
              var prompts := c.prompts[owner := Finish(c.prompts[owner], how)];
              && (c.pending.Some? && c.pending.value.owner == owner ==> Sound(c.(closed := closed, pending := None, prompts := prompts)))
              && (c.pending.Some? && c.pending.value.owner != owner ==> Sound(c.(closed := closed, prompts := prompts)))
              && (c.pending.None? ==> Sound(c.(closed := closed, prompts := prompts)))
  {
    assert forall i | 0 <= i < |c.prompts| :: PromptSound(c, i) ==> PromptSound(c.(closed := closed), i);
    if owner < c.started {
      assert PromptSound(c, owner);
      var here := c.pending.Some? && c.pending.value.owner == owner;
      var after := Client(closed, if here then None else c.pending, c.requestCount, c.prompts[owner := Finish(c.prompts[owner], how)], c.started);
      forall i | 0 <= i < |after.prompts| ensures PromptSound(after, i) {
        assert PromptSound(c, i);
      }
      assert forall i | 0 <= i < |c.prompts| :: after.prompts[i].id == c.prompts[i].id;
    }
  }

  lemma LineKeepsSound(c: Client, line: Line)
    requires Sound(c) && c.pending.Some?
    ensures Sound(OnLine(c, line))
  {
    var after := OnLine(c, line);
    if after.pending.Some? {
      assert after.prompts == c.prompts;
      assert forall i | 0 <= i < |c.prompts| :: PromptSound(c, i) ==> PromptSound(after, i);
    } else {
      var how := after.prompts[c.pending.value.owner].phase;
      assert PromptSound(c, c.pending.value.owner);
      FinishKeepsSound(c, c.pending.value.owner, how.how, c.closed);
    }
  }

  lemma CallKeepsSound(c: Client)
    requires Sound(c)
    ensures Sound(Step(c, Call))
  {
    var after := Step(c, Call);
    forall i | 0 <= i < |after.prompts| ensures PromptSound(after, i) {
      assert i < |c.prompts| ==> PromptSound(c, i);
    }
  }

  lemma StartKeepsSound(c: Client)
    requires Sound(c) && Enabled(c, Start)
    ensures Sound(Step(c, Start))
  {
    var after := Step(c, Start);
    if c.started > 0 {
      assert PromptSound(c, c.started - 1);
    }
    forall i | 0 <= i < |after.prompts| ensures PromptSound(after, i) {
      assert PromptSound(c, i);
    }
    forall i, j | 0 <= i < j < after.started && after.prompts[i].id > 0 && after.prompts[j].id > 0
      ensures after.prompts[i].id < after.prompts[j].id
    {
      assert PromptSound(c, i) && PromptSound(c, j);
    }
  }

  /** Request numbers are unique, so the pending number names its owner. */
  lemma OwnerById(c: Client)
    requires Sound(c) && c.pending.Some?
    ensures forall i | 0 <= i < |c.prompts| && c.prompts[i].id == c.pending.value.id :: i == c.pending.value.owner
  {
    var owner := c.pending.value.owner;
    forall i | 0 <= i < |c.prompts| && c.prompts[i].id == c.pending.value.id ensures i == owner {
      assert PromptSound(c, i);
    }
  }

  /** In every interleaving at most one request is pending, an unsettled running prompt has
      both timers armed, and no settled or queued prompt has either. */
  lemma {:induction false} EveryRunSound(events: seq<Event>)
    ensures Sound(Run(FRESH, events))
  {
    if events == [] {
    } else {
      EveryRunSound(events[..|events| - 1]);
      var before := Run(FRESH, events[..|events| - 1]);
      if Enabled(before, events[|events| - 1]) {
        StepKeepsSound(before, events[|events| - 1]);
      }
    }
  }

  /** A prompt settles at most once: no later event changes how it settled. */
  lemma {:induction false} SettledForGood(c: Client, events: seq<Event>, i: nat)
    requires Sound(c) && i < |c.prompts| && c.prompts[i].phase.Settled?
    ensures var after := Run(c, events);
            Sound(after) && i < |after.prompts| && after.prompts[i].phase == c.prompts[i].phase
  {
    if events == [] {
    } else {
      SettledForGood(c, events[..|events| - 1], i);
      var before := Run(c, events[..|events| - 1]);
      if Enabled(before, events[|events| - 1]) {
        StepKeepsSound(before, events[|events| - 1]);
        StepKeepsSettled(before, events[|events| - 1], i);
      }
    }
  }

  lemma StepKeepsSettled(c: Client, e: Event, i: nat)
    requires Sound(c) && Enabled(c, e) && i < |c.prompts| && c.prompts[i].phase.Settled?
    ensures i < |Step(c, e).prompts| && Step(c, e).prompts[i].phase == c.prompts[i].phase
  {
    assert PromptSound(c, i);
    if c.started < |c.prompts| {
      assert PromptSound(c, c.started);
    }
  }

  /** A running prompt cannot hang: its deadline is armed, and if that fires it is rejected,
      its timers are gone and the client is closed. */
  lemma DeadlineSettles(c: Client, i: nat)
    requires Sound(c) && i < |c.prompts| && c.prompts[i].phase.Running?
    ensures Enabled(c, Deadline(i))
    ensures var after := Step(c, Deadline(i));
            after.prompts[i] == Prompt(c.prompts[i].id, Settled(Rejected(TimedOut)), false, false) && after.closed && after.pending.None?
  {
    assert PromptSound(c, i);
  }

  // ----- how each event settles -----

  predicate HasError(m: Message) {
    m.Assistant? && (m.errorMessage != "" || m.stopReason == "error")
  }

  /** A message that is passed over: not the assistant's, or one of its own without error and without content. */
  predicate Silent(m: Message) {
    m.OtherMessage? || (m.Assistant? && m.errorMessage == "" && m.stopReason != "error" && m.content.NoContent?)
  }

  lemma {:induction false} LastVoiceCounts(messages: seq<Message>, i: nat)
    requires i < |messages| && !Silent(messages[i]) && forall k | i < k < |messages| :: Silent(messages[k])
    ensures Decides(messages[i]) && Extracted(messages) == Verdict(messages[i])
  {
    if i == |messages| - 1 {
    } else {
      assert Silent(messages[|messages| - 1]);
      LastVoiceCounts(messages[..|messages| - 1], i);
    }
  }

  lemma {:induction false} NobodySpoke(messages: seq<Message>)
    requires forall m | m in messages :: Silent(m)
    ensures Extracted(messages) == Err("assistant translation not found")
  {
    if messages == [] {
    } else {
      assert Silent(messages[|messages| - 1]);
      assert forall m | m in messages[..|messages| - 1] :: m in messages;
      NobodySpoke(messages[..|messages| - 1]);
    }
  }

  /** The text of content blocks is the texts of the blocks, in order; and see OneBlock. */
  lemma {:induction false} BlocksJoined(a: seq<Block>, b: seq<Block>)
    ensures BlocksText(a + b) == BlocksText(a) + BlocksText(b)
  {
    if a == [] {
      assert a + b == b;
    } else {
      BlocksJoined(a[1..], b);
      FirstBlock(a, b);
      var first := if a[0].Block? && a[0].kind == "text" && a[0].text.Some? then a[0].text.value else "";
      assert first + (BlocksText(a[1..]) + BlocksText(b)) == first + BlocksText(a[1..]) + BlocksText(b);
    }
  }

  lemma FirstBlock(a: seq<Block>, b: seq<Block>)
    requires a != []
    ensures (a + b)[0] == a[0] && (a + b)[1..] == a[1..] + b
  {
  }

  /** Only a block of kind text with a text has any. */
  lemma OneBlock(block: Block)
    ensures BlocksText([block]) == if block.Block? && block.kind == "text" && block.text.Some? then block.text.value else ""
  {
    assert [block][1..] == [];
  }

  /** How the pending prompt is settled; nothing is pending afterwards, and no other prompt is touched. */
  ghost predicate SettlesPending(c: Client, c': Client, how: Settlement)
    requires Sound(c) && c.pending.Some?
  {
    var owner := c.pending.value.owner;
    && c'.pending.None? && c'.requestCount == c.requestCount && c'.started == c.started && |c'.prompts| == |c.prompts|
    && c'.prompts[owner] == Prompt(c.prompts[owner].id, Settled(how), false, false)
    && forall k | 0 <= k < |c.prompts| && k != owner :: c'.prompts[k] == c.prompts[k]
  }

  /** An agent_end settles the pending prompt by the last message that is not passed over: it is rejected with that
      message's error, resolved with its text or the joined text of its blocks, or rejected if there is none. */
  lemma AgentEndSettles(c: Client, messages: seq<Message>, of: nat)
    requires Sound(c) && c.pending.Some?
    ensures var c' := Step(c, Stdout(AgentEnd(messages, of)));
            && (forall i | 0 <= i < |messages| && HasError(messages[i]) && (forall k | i < k < |messages| :: Silent(messages[k])) ::
                  SettlesPending(c, c', Rejected(BadReply(
                    if Trim(messages[i].errorMessage) != "" then Trim(messages[i].errorMessage) else "pi error"))))
            && (forall i | 0 <= i < |messages| && messages[i].Assistant? && !HasError(messages[i]) && messages[i].content.PlainText?
                           && (forall k | i < k < |messages| :: Silent(messages[k])) ::
                  SettlesPending(c, c', Resolved(messages[i].content.text, of)))
            && (forall i | 0 <= i < |messages| && messages[i].Assistant? && !HasError(messages[i]) && messages[i].content.Blocks?
                           && (forall k | i < k < |messages| :: Silent(messages[k])) ::
                  SettlesPending(c, c', Resolved(BlocksText(messages[i].content.blocks), of)))
            && ((forall m | m in messages :: Silent(m)) ==>
                  SettlesPending(c, c', Rejected(BadReply("assistant translation not found"))))
  {
    assert PromptSound(c, c.pending.value.owner);
    forall i | 0 <= i < |messages| && !Silent(messages[i]) && (forall k | i < k < |messages| :: Silent(messages[k]))
      ensures Decides(messages[i]) && Extracted(messages) == Verdict(messages[i])
    {
      LastVoiceCounts(messages, i);
    }
    if forall m | m in messages :: Silent(m) {
      NobodySpoke(messages);
    }
  }

  /** A response to the pending request rejects it if it failed and is noted if not; every other line changes nothing. */
  lemma OtherLinesSettle(c: Client, line: Line)
    requires Sound(c) && !line.AgentEnd?
    ensures var c' := Step(c, Stdout(line));
            && (c.pending.None? || line.Noise? || line.id != c.pending.value.id ==> c' == c)
            && (c.pending.Some? && line.Response? && line.id == c.pending.value.id ==>
                  && (!line.success ==> SettlesPending(c, c', Rejected(PromptFailed(
                        if Trim(line.error) != "" then Trim(line.error) else "pi prompt failed"))))
                  && (line.success ==> c' == c.(pending := Some(c.pending.value.(responseReceived := true)))))
  {
    if c.pending.Some? {
      assert PromptSound(c, c.pending.value.owner);
    }
  }

  /** What the process does rejects the pending prompt: its error with the client left open, its end with the client closed. */
  lemma ProcessEventsReject(c: Client)
    requires Sound(c)
    ensures c.pending.Some? ==> SettlesPending(c, Step(c, ProcessError), Rejected(ProcessFailed))
                                && SettlesPending(c, Step(c, ProcessClose), Rejected(ProcessClosed))
    ensures Step(c, ProcessError).closed == c.closed && Step(c, ProcessClose).closed
    ensures c.pending.None? ==> Step(c, ProcessError) == c && Step(c, ProcessClose) == c.(closed := true)
  {
    if c.pending.Some? {
      assert PromptSound(c, c.pending.value.owner);
    }
  }

  /** A write error rejects its own prompt if that is still running, and changes nothing otherwise. */
  lemma WriteErrorRejects(c: Client, owner: nat)
    requires Sound(c) && Enabled(c, WriteError(owner))
    ensures var c' := Step(c, WriteError(owner));
            && (c.prompts[owner].phase.Running? ==> c.pending.Some? && c.pending.value.owner == owner && SettlesPending(c, c', Rejected(WriteFailed)))
            && (c.prompts[owner].phase.Settled? ==> c' == c)
  {
    assert PromptSound(c, owner);
    if c.pending.Some? {
      OwnerById(c);
    }
  }

  /** A call whose turn comes is rejected on a closed client, and otherwise becomes the pending request with the next number. */
  lemma TurnBegins(c: Client)
    requires Sound(c) && Enabled(c, Start)
    ensures var c' := Step(c, Start); var p := c'.prompts[c.started];
            && c'.started == c.started + 1 && |c'.prompts| == |c.prompts|
            && (forall k | 0 <= k < |c.prompts| && k != c.started :: c'.prompts[k] == c.prompts[k])
            && (c.closed ==> p.phase == Settled(Rejected(Unavailable)) && !p.deadline && !p.heartbeat
                             && c'.pending == c.pending && c'.requestCount == c.requestCount)
            && (!c.closed ==> p == Prompt(c.requestCount + 1, Running, true, true) && c'.requestCount == c.requestCount + 1
                              && c'.pending == Some(Pending(c.requestCount + 1, c.started, false)))
  {
    assert PromptSound(c, c.started);
  }

  // ----- the class -----

  datatype Signal = SIGTERM | SIGKILL

  class PiRpcClient {
    var closed: bool
    var pending: Option<Pending>
    var requestCount: nat
    var prompts: seq<Prompt>
    var started: nat

    ghost function State(): Client reads this {
      Client(closed, pending, requestCount, prompts, started)
    }

    constructor ()
      ensures State() == FRESH
    {
      closed, pending, requestCount, prompts, started := false, None, 0, [], 0;
    }

    method Call()
      modifies this
      ensures State() == Step(old(State()), Event.Call)
    {
      prompts := prompts + [Prompt(0, Queued, false, false)];
    }

    method StartNext()
      requires Enabled(State(), Start)
      modifies this
      ensures State() == Step(old(State()), Start)
    {
      var i := started;
      started := started + 1;
      if closed {
        Settle(i, Rejected(Unavailable));
        return;
      }
      requestCount := requestCount + 1;
      prompts := prompts[i := Prompt(requestCount, Running, true, true)];
      pending := Some(Pending(requestCount, i, false));
    }

    method Settle(i: nat, how: Settlement)
      requires i < |prompts|
      modifies this`prompts
      ensures prompts == old(prompts)[i := Finish(old(prompts)[i], how)]
    {
      var p := prompts[i];
      p := p.(deadline := false, heartbeat := false);
      if !p.phase.Settled? {
        p := p.(phase := Settled(how));
      }
      prompts := prompts[i := p];
    }

    method SettlePending(how: Settlement)
      requires pending.Some? ==> pending.value.owner < |prompts|
      modifies this`pending, this`prompts
      ensures State() == FinishPending(old(State()), how)
    {
      var p := pending;
      pending := None;
      if p.Some? {
        Settle(p.value.owner, how);
      }
    }

    method HandleStdoutLine(line: Line)
      requires Sound(State())
      modifies this
      ensures State() == Step(old(State()), Stdout(line)) && Sound(State())
    {
      StepKeepsSound(State(), Stdout(line));
      if pending.None? {
        return;
      }
      match line
      case Noise =>
      case Response(id, success, error) =>
        if id != pending.value.id {
          return;
        }
        if !success {
          var text := Trim(error);
          SettlePending(Rejected(PromptFailed(if text != "" then text else "pi prompt failed")));
          return;
        }
        pending := Some(pending.value.(responseReceived := true));
      case AgentEnd(messages, of) =>
        var result := ExtractTranslationResult(messages);
        SettlePending(if result.Ok? then Resolved(result.value, of) else Rejected(BadReply(result.message)));
    }

    method OnWriteError(owner: nat)
      requires Sound(State()) && Enabled(State(), WriteError(owner))
      modifies this
      ensures State() == Step(old(State()), WriteError(owner)) && Sound(State())
    {
      StepKeepsSound(State(), WriteError(owner));
      if pending.Some? && pending.value.id == prompts[owner].id {
        pending := None;
      }
      Settle(owner, Rejected(WriteFailed));
    }

    method OnDeadline(owner: nat)
      requires Sound(State()) && Enabled(State(), Deadline(owner))
      modifies this
      ensures State() == Step(old(State()), Deadline(owner)) && Sound(State())
    {
      StepKeepsSound(State(), Deadline(owner));
      prompts := prompts[owner := prompts[owner].(deadline := false)];
      if pending.Some? && pending.value.id == prompts[owner].id {
        pending := None;
        prompts := prompts[owner := prompts[owner].(heartbeat := false)];
        var delivered: bool := *;
        var _, _ := CloseClient(delivered);
        Settle(owner, Rejected(TimedOut));
      }
    }

    method OnProcessError()
      requires Sound(State())
      modifies this
      ensures State() == Step(old(State()), ProcessError) && Sound(State())
    {
      StepKeepsSound(State(), ProcessError);
      SettlePending(Rejected(ProcessFailed));
    }

    method OnProcessClose()
      requires Sound(State())
      modifies this
      ensures State() == Step(old(State()), ProcessClose) && Sound(State())
    {
      StepKeepsSound(State(), ProcessClose);
      closed := true;
      SettlePending(Rejected(ProcessClosed));
    }

    /** The first close ends the input and sends SIGTERM; if that could not be delivered, SIGKILL follows. */
    method CloseClient(delivered: bool) returns (inputEnded: bool, signals: seq<Signal>)
      modifies this`closed
      ensures State() == Step(old(State()), Event.Close)
      ensures inputEnded <==> !old(closed)
      ensures signals == if old(closed) then [] else if delivered then [SIGTERM] else [SIGTERM, SIGKILL]
    {
      if closed {
        return false, [];
      }
      closed := true;
      inputEnded, signals := true, [SIGTERM];
      if !delivered {
        signals := signals + [SIGKILL];
      }
    }
  }
}
