/** One supervised command of the cross-OS release checks: output, exit, errors, a timeout
    that kills, a wait after the kill, and a heartbeat, in any order. */
module CommandRun {
  import opened Text

  datatype Reason = SpawnFailed | TimedOut | NotTerminated | Failed(exitCode: int)

  datatype Settlement = Resolved(exitCode: int, stdout: string, stderr: string) | Rejected(reason: Reason)

  datatype Options = Options(hasTimeout: bool, hasHeartbeat: bool, check: bool)

  /** `lateWrites` counts log writes after the log was ended. */
  datatype Run = Run(
    stdout: string, stderr: string, timedOut: bool, settled: Option<Settlement>,
    timer: bool, killWaitTimer: bool, heartbeatTimer: bool, lateWrites: nat)

  /** `killFails`: the child reports that it cannot be signalled while the kill is requested. */
  datatype Event = Stdout(text: string) | Stderr(text: string) | Error | Close(exitCode: Option<int>)
                 | Timeout(killFails: bool) | KillWaitOver | Heartbeat

  function Start(o: Options): Run {
    Run("", "", false, None, o.hasTimeout, false, o.hasHeartbeat, 0)
  }

  predicate Enabled(r: Run, e: Event) {
    match e
    case Timeout(_) => r.timer
    case KillWaitOver => r.killWaitTimer
    case Heartbeat => r.heartbeatTimer
    case _ => true
  }

  function Finalize(r: Run, how: Settlement): Run {
    if r.settled.Some? then r
    else r.(settled := Some(how), timer := false, killWaitTimer := false, heartbeatTimer := false)
  }

  function LogWrite(r: Run): Run {
    if r.settled.Some? then r.(lateWrites := r.lateWrites + 1) else r
  }

  function CloseOutcome(o: Options, r: Run, exitCode: Option<int>): Settlement {
    var code := match exitCode case Some(c) => c case None => 1;
    if r.timedOut then Rejected(TimedOut)
    else if o.check && code != 0 then Rejected(Failed(code))
    else Resolved(code, r.stdout, r.stderr)
  }

  function Step(o: Options, r: Run, e: Event): Run
    requires Enabled(r, e)
  {
    match e
    case Stdout(text) => LogWrite(r.(stdout := r.stdout + text))
    case Stderr(text) => LogWrite(r.(stderr := r.stderr + text))
    case Error => Finalize(r, Rejected(SpawnFailed))
    case Close(exitCode) => Finalize(r, CloseOutcome(o, r, exitCode))
    case Timeout(killFails) =>
      var expired := LogWrite(r.(timedOut := true, timer := false));
      (if killFails then Finalize(expired, Rejected(SpawnFailed)) else expired).(killWaitTimer := true)
    case KillWaitOver => Finalize(r.(killWaitTimer := false), Rejected(NotTerminated))
    case Heartbeat => LogWrite(r)
  }

  function After(o: Options, events: seq<Event>): Run {
    if events == [] then Start(o)
    else
      var before, e := After(o, events[..|events| - 1]), events[|events| - 1];
      if Enabled(before, e) then Step(o, before, e) else before
  }

  // ----- settling -----

  /** Whether an event can decide the command, given that nothing decided it before. */
  predicate Decides(o: Options, e: Event) {
    match e
    case Error => true
    case Close(_) => true
    case Timeout(_) => o.hasTimeout
    case _ => false
  }

  ghost predicate DecidedAt(o: Options, events: seq<Event>, k: int) {
    0 <= k < |events| && Decides(o, events[k]) && forall j | 0 <= j < k :: !Decides(o, events[j])
  }

  function Output(events: seq<Event>, fromStdout: bool): string {
    if events == [] then ""
    else Output(events[..|events| - 1], fromStdout) + OutputOf(events[|events| - 1], fromStdout)
  }

  function OutputOf(e: Event, fromStdout: bool): string {
    match e
    case Stdout(text) => if fromStdout then text else ""
    case Stderr(text) => if fromStdout then "" else text
    case _ => ""
  }

  lemma OutputSnoc(events: seq<Event>, e: Event, fromStdout: bool)
    ensures Output(events + [e], fromStdout) == Output(events, fromStdout) + OutputOf(e, fromStdout)
  {
    assert (events + [e])[..|events|] == events;
  }

  lemma OutputSnocBehind(events: seq<Event>, init: seq<Event>, last: Event, fromStdout: bool)
    ensures Output(events + (init + [last]), fromStdout) == Output(events + init, fromStdout) + OutputOf(last, fromStdout)
  {
    assert (events + (init + [last]))[..|events + init|] == events + init;
  }

  lemma OutputStep(events: seq<Event>, init: seq<Event>, last: Event, fromStdout: bool)
    requires Output(events + init, fromStdout) == Output(events, fromStdout) + Output(init, fromStdout)
    ensures Output(events + (init + [last]), fromStdout) == Output(events, fromStdout) + Output(init + [last], fromStdout)
  {
    OutputSnoc(init, last, fromStdout);
    OutputSnocBehind(events, init, last, fromStdout);
    Associates(Output(events, fromStdout), Output(init, fromStdout), OutputOf(last, fromStdout));
  }

  lemma Associates(a: string, b: string, c: string)
    ensures a + b + c == a + (b + c)
  {
  }

  /** The output of a stream is what arrived on it, in the order it arrived. */
  lemma {:induction false} OutputConcat(events: seq<Event>, more: seq<Event>, fromStdout: bool)
    ensures Output(events + more, fromStdout) == Output(events, fromStdout) + Output(more, fromStdout)
  {
    if more == [] {
      assert events + more == events;
    } else {
      var init, last := more[..|more| - 1], more[|more| - 1];
      OutputConcat(events, init, fromStdout);
      OutputStep(events, init, last, fromStdout);
      assert more == init + [last];
    }
  }

  lemma OneOutput(e: Event, text: string)
    ensures Output([Stdout(text)], true) == text && Output([Stdout(text)], false) == ""
    ensures Output([Stderr(text)], true) == "" && Output([Stderr(text)], false) == text
    ensures !e.Stdout? && !e.Stderr? ==> Output([e], true) == "" && Output([e], false) == ""
  {
    assert Output([], true) == "" && Output([], false) == "";
  }

  /** What every run keeps. */
  ghost predicate Kept(o: Options, r: Run) {
    && (r.settled.Some? ==> !r.timer && !r.heartbeatTimer)
    && (r.settled.None? ==> r.timer == (o.hasTimeout && !r.timedOut) && r.heartbeatTimer == o.hasHeartbeat && r.lateWrites == 0)
    && (r.settled.None? ==> r.killWaitTimer == r.timedOut)
    && (r.timedOut ==> r.settled.Some? ==> r.settled.value.Rejected?)
  }

  lemma {:induction false} EveryRunKept(o: Options, events: seq<Event>)
    ensures Kept(o, After(o, events))
  {
    if events == [] {
    } else {
      EveryRunKept(o, events[..|events| - 1]);
    }
  }

  /** The command settles once: later events never change how. */
  lemma {:induction false} SettledForGood(o: Options, events: seq<Event>, more: seq<Event>)
    requires After(o, events).settled.Some?
    ensures After(o, events + more).settled == After(o, events).settled
  {
    if more == [] {
      assert events + more == events;
    } else {
      SettledForGood(o, events, more[..|more| - 1]);
      assert (events + more)[..|events + more| - 1] == events + more[..|more| - 1];
    }
  }

  /** Once the timeout has fired, the command can only be rejected. */
  lemma {:induction false} TimeoutOnlyRejects(o: Options, events: seq<Event>, more: seq<Event>)
    requires var r := After(o, events); r.timedOut && r.settled.None?
    ensures var r := After(o, events + more); r.timedOut && (r.settled.Some? ==> r.settled.value.Rejected?)
  {
    if more == [] {
      assert events + more == events;
    } else {
      TimeoutOnlyRejects(o, events, more[..|more| - 1]);
      assert (events + more)[..|events + more| - 1] == events + more[..|more| - 1];
    }
  }

  /** Before anything decides, the output is collected and nothing is settled. */
  lemma {:induction false} Undecided(o: Options, events: seq<Event>)
    requires forall j | 0 <= j < |events| :: !Decides(o, events[j])
    ensures var r := After(o, events);
            r.settled.None? && !r.timedOut && r.stdout == Output(events, true) && r.stderr == Output(events, false)
  {
    EveryRunKept(o, events);
    if events == [] {
    } else {
      Undecided(o, events[..|events| - 1]);
      EveryRunKept(o, events[..|events| - 1]);
    }
  }

  ghost predicate ClosedWell(o: Options, events: seq<Event>, k: int) {
    DecidedAt(o, events, k) && events[k].Close? && (events[k].exitCode == Some(0) || !o.check)
  }

  /** The command resolves exactly when its close comes before any error and any timeout, and
      the exit code is 0 or not checked; it then carries all output received before the close. */
  lemma ResolvesExactly(o: Options, events: seq<Event>)
    ensures var settled := After(o, events).settled;
            && (settled.Some? && settled.value.Resolved? <==> exists k :: ClosedWell(o, events, k))
            && forall k :: ClosedWell(o, events, k) ==>
                 settled == Some(Resolved(match events[k].exitCode case Some(c) => c case None => 1, Output(events[..k], true), Output(events[..k], false)))
  {
    forall k | ClosedWell(o, events, k)
      ensures After(o, events).settled
              == Some(Resolved(match events[k].exitCode case Some(c) => c case None => 1, Output(events[..k], true), Output(events[..k], false)))
    {
      DecisionStands(o, events, k);
    }
    var settled := After(o, events).settled;
    if settled.Some? && settled.value.Resolved? {
      var k := FirstDecision(o, events);
      DecisionStands(o, events, k);
      assert ClosedWell(o, events, k);
    }
  }

  lemma DecisionStands(o: Options, events: seq<Event>, k: nat)
    requires DecidedAt(o, events, k)
    ensures var r := After(o, events[..k]);
            && Enabled(r, events[k]) && r.stdout == Output(events[..k], true) && r.stderr == Output(events[..k], false)
            && (var s := Step(o, r, events[k]).settled;
                if s.Some? then After(o, events).settled == s
                else events[k].Timeout? && (After(o, events).settled.Some? ==> After(o, events).settled.value.Rejected?))
            && !r.timedOut && r.settled.None?
  {
    Undecided(o, events[..k]);
    EveryRunKept(o, events[..k]);
    assert events[..k + 1][..k] == events[..k] && events == events[..k + 1] + events[k + 1..];
    if After(o, events[..k + 1]).settled.Some? {
      SettledForGood(o, events[..k + 1], events[k + 1..]);
    } else {
      TimeoutOnlyRejects(o, events[..k + 1], events[k + 1..]);
    }
  }

  lemma {:induction false} FirstDecision(o: Options, events: seq<Event>) returns (k: nat)
    requires After(o, events).settled.Some?
    ensures DecidedAt(o, events, k)
  {
    k := 0;
    while k < |events| && !Decides(o, events[k])
      invariant k <= |events| && forall j | 0 <= j < k :: !Decides(o, events[j])
    {
      k := k + 1;
    }
    if k == |events| {
      Undecided(o, events);
    }
  }

  /** The first deciding event settles the command with its own reason, unless it is a timeout whose kill was requested. */
  lemma FirstDecides(o: Options, events: seq<Event>, k: nat)
    requires DecidedAt(o, events, k)
    ensures events[k].Error? || events[k] == Timeout(true) ==> After(o, events).settled == Some(Rejected(SpawnFailed))
    ensures events[k].Close? && o.check && events[k].exitCode != Some(0)
            ==> After(o, events).settled == Some(Rejected(Failed(match events[k].exitCode case Some(c) => c case None => 1)))
  {
    DecisionStands(o, events, k);
  }

  /** Whether an event ends the wait after a timeout. */
  predicate EndsWait(e: Event) {
    e.Error? || e.Close? || e.KillWaitOver?
  }

  function WaitReason(e: Event): Reason
    requires EndsWait(e)
  {
    if e.Error? then SpawnFailed else if e.Close? then Reason.TimedOut else NotTerminated
  }

  /** Between a timeout and the end of the wait the command stays open, with the kill-wait timer armed. */
  lemma {:induction false} Waiting(o: Options, events: seq<Event>, k: nat)
    requires DecidedAt(o, events, k) && events[k] == Timeout(false) && forall j | k < j < |events| :: !EndsWait(events[j])
    ensures var r := After(o, events); r.settled.None? && r.timedOut && r.killWaitTimer && !r.timer
    decreases |events|
  {
    var init, e := events[..|events| - 1], events[|events| - 1];
    EveryRunKept(o, events);
    EveryRunKept(o, init);
    if k == |init| {
      Undecided(o, init);
    } else {
      assert DecidedAt(o, init, k);
      Waiting(o, init, k);
    }
  }

  /** After a timeout that decides, the command settles exactly at the first error, close or end of the kill wait, with that reason. */
  lemma TimeoutSettles(o: Options, events: seq<Event>, k: nat)
    requires DecidedAt(o, events, k) && events[k] == Timeout(false)
    ensures After(o, events).settled.Some? <==> exists m | k < m < |events| :: EndsWait(events[m])
    ensures forall m | k < m < |events| && EndsWait(events[m]) && (forall j | k < j < m :: !EndsWait(events[j])) ::
              After(o, events).settled == Some(Rejected(WaitReason(events[m])))
  {
    forall m | k < m < |events| && EndsWait(events[m]) && (forall j | k < j < m :: !EndsWait(events[j]))
      ensures After(o, events).settled == Some(Rejected(WaitReason(events[m])))
    {
      assert DecidedAt(o, events[..m], k);
      Waiting(o, events[..m], k);
      assert events[..m + 1][..m] == events[..m] && events == events[..m + 1] + events[m + 1..];
      SettledForGood(o, events[..m + 1], events[m + 1..]);
    }
    if m0 :| k < m0 < |events| && EndsWait(events[m0]) {
      var m := FirstEnd(events, k, m0);
      assert After(o, events).settled == Some(Rejected(WaitReason(events[m])));
    } else {
      Waiting(o, events, k);
    }
  }

  lemma FirstEnd(events: seq<Event>, k: nat, last: nat) returns (m: nat)
    requires k < last < |events| && EndsWait(events[last])
    ensures k < m < |events| && EndsWait(events[m]) && forall j | k < j < m :: !EndsWait(events[j])
  {
    m := k + 1;
    while !EndsWait(events[m])
      invariant k < m <= last && forall j | k < j < m :: !EndsWait(events[j])
      decreases last - m
    {
      m := m + 1;
    }
  }

  // ----- timers and the log -----

  /** Settling clears every timer, except when the kill request itself reports an error: then
      the kill-wait timer is armed after the command has settled. */
  lemma TimersClearedExactly(o: Options, events: seq<Event>, e: Event)
    requires var r := After(o, events); r.settled.None? && Enabled(r, e) && Step(o, r, e).settled.Some?
    ensures var r := Step(o, After(o, events), e);
            !r.timer && !r.heartbeatTimer && (r.killWaitTimer <==> e == Timeout(true))
  {
    EveryRunKept(o, events);
  }

  /** The first deciding event was a timeout whose kill request failed, and the kill wait has not run out since. */
  ghost predicate StrayTimer(o: Options, events: seq<Event>) {
    exists k :: StrayAt(o, events, k)
  }

  ghost predicate StrayAt(o: Options, events: seq<Event>, k: int) {
    DecidedAt(o, events, k) && events[k] == Timeout(true) && forall j | k < j < |events| :: events[j] != KillWaitOver
  }

  /** While nothing is settled and no timeout has fired, nothing has decided; and a failed kill request settles. */
  lemma UnsettledMeans(o: Options, events: seq<Event>, k: nat)
    requires DecidedAt(o, events, k) && After(o, events).settled.None?
    ensures After(o, events).timedOut && events[k] != Timeout(true)
  {
    DecisionStands(o, events, k);
    var r := After(o, events[..k]);
    assert events[..k + 1][..k] == events[..k] && events == events[..k + 1] + events[k + 1..];
    assert After(o, events[..k + 1]) == Step(o, r, events[k]);
    if After(o, events[..k + 1]).settled.None? {
      TimeoutOnlyRejects(o, events[..k + 1], events[k + 1..]);
    }
  }

  lemma StrayKept(o: Options, init: seq<Event>, e: Event)
    requires After(o, init).settled.Some?
    ensures StrayTimer(o, init + [e]) <==> StrayTimer(o, init) && e != KillWaitOver
  {
    var events := init + [e];
    var d := FirstDecision(o, init);
    assert forall j | 0 <= j < |init| :: events[j] == init[j];
    assert DecidedAt(o, events, d);
    if StrayTimer(o, init) && e != KillWaitOver {
      var k :| StrayAt(o, init, k);
      assert StrayAt(o, events, k);
    }
    if StrayTimer(o, events) {
      var k :| StrayAt(o, events, k);
      assert k == d && events[|init|] == e;
      assert StrayAt(o, init, k);
    }
  }

  lemma StrayStarts(o: Options, init: seq<Event>, e: Event)
    requires var r := After(o, init); r.settled.None? && Enabled(r, e) && Step(o, r, e).settled.Some?
    ensures StrayTimer(o, init + [e]) <==> e == Timeout(true)
  {
    var events := init + [e];
    EveryRunKept(o, init);
    if e == Timeout(true) {
      forall j | 0 <= j < |init| ensures !Decides(o, events[j]) {
        NothingDecided(o, init, j);
      }
      assert StrayAt(o, events, |init|);
    } else if StrayTimer(o, events) {
      var k :| StrayAt(o, events, k);
      assert forall j | 0 <= j < |init| :: init[j] == events[j];
      assert DecidedAt(o, init, k);
      UnsettledMeans(o, init, k);
    }
  }

  lemma NothingDecided(o: Options, events: seq<Event>, j: nat)
    requires var r := After(o, events); r.settled.None? && !r.timedOut && j < |events|
    ensures !Decides(o, events[j])
  {
    if Decides(o, events[j]) {
      var k := 0;
      while !Decides(o, events[k])
        invariant k <= j && forall i | 0 <= i < k :: !Decides(o, events[i])
        decreases j - k
      {
        k := k + 1;
      }
      UnsettledMeans(o, events, k);
    }
  }

  /** Over every run: once the command has settled, the only timer that can be armed is the kill-wait timer, and it
      is armed exactly when the kill request of the deciding timeout failed and the wait has not run out yet. */
  lemma {:induction false} TimersExactly(o: Options, events: seq<Event>)
    ensures var r := After(o, events);
            r.settled.Some? ==> !r.timer && !r.heartbeatTimer && (r.killWaitTimer <==> StrayTimer(o, events))
  {
    EveryRunKept(o, events);
    if events == [] {
    } else {
      var init, e := events[..|events| - 1], events[|events| - 1];
      var before := After(o, init);
      assert events == init + [e];
      TimersExactly(o, init);
      EveryRunKept(o, init);
      if before.settled.Some? {
        StrayKept(o, init, e);
      } else if Enabled(before, e) && Step(o, before, e).settled.Some? {
        TimersClearedExactly(o, init, e);
        StrayStarts(o, init, e);
      }
    }
  }

  /** Such a run: a timeout whose kill request reports an error at once. */
  lemma StrayTimerHappens(o: Options)
    requires o.hasTimeout
    ensures var r := After(o, [Timeout(true)]); r.settled == Some(Rejected(SpawnFailed)) && r.killWaitTimer
  {
    assert [Timeout(true)][..0] == [];
  }

  /** The timer left over can still fire, without any effect but on itself. */
  lemma StrayTimerHarmless(o: Options, events: seq<Event>)
    requires var r := After(o, events); r.settled.Some? && r.killWaitTimer
    ensures Step(o, After(o, events), KillWaitOver) == After(o, events).(killWaitTimer := false)
  {
  }

  lemma {:induction false} NoTimerComesBack(o: Options, events: seq<Event>, more: seq<Event>)
    requires var r := After(o, events); r.settled.Some? && !r.killWaitTimer
    ensures var r := After(o, events + more); !r.timer && !r.killWaitTimer && !r.heartbeatTimer
  {
    EveryRunKept(o, events);
    if more == [] {
      assert events + more == events;
    } else {
      NoTimerComesBack(o, events, more[..|more| - 1]);
      SettledForGood(o, events, more[..|more| - 1]);
      EveryRunKept(o, events + more[..|more| - 1]);
      assert (events + more)[..|events + more| - 1] == events + more[..|more| - 1];
    }
  }

  /** The log is written to after its end exactly when output arrives after settling. */
  lemma LateWriteExactly(o: Options, events: seq<Event>, e: Event)
    requires Enabled(After(o, events), e)
    ensures var r := After(o, events);
            Step(o, r, e).lateWrites > r.lateWrites <==> r.settled.Some? && (e.Stdout? || e.Stderr?)
  {
    EveryRunKept(o, events);
  }

  /** Such a run: an error settles the command, then output still arrives. */
  lemma LateWriteHappens(o: Options, text: string)
    ensures After(o, [Error, Stdout(text)]).lateWrites == 1
  {
    var events := [Error, Stdout(text)];
    assert events[..1] == [Error] && events[..1][..0] == [];
    assert After(o, events[..1]).settled == Some(Rejected(SpawnFailed));
  }

  // ----- the callbacks -----

  class Command {
    const options: Options
    var stdout: string
    var stderr: string
    var timedOut: bool
    var settled: Option<Settlement>
    var timer: bool
    var killWaitTimer: bool
    var heartbeatTimer: bool
    var lateWrites: nat

    ghost function State(): Run reads this {
      Run(stdout, stderr, timedOut, settled, timer, killWaitTimer, heartbeatTimer, lateWrites)
    }

    constructor (options: Options)
      ensures this.options == options && State() == Start(options)
    {
      this.options := options;
      stdout, stderr, timedOut, settled, lateWrites := "", "", false, None, 0;
      timer, killWaitTimer, heartbeatTimer := options.hasTimeout, false, options.hasHeartbeat;
    }

    method Settle(how: Settlement)
      modifies this
      ensures State() == Finalize(old(State()), how)
    {
      if settled.Some? {
        return;
      }
      settled := Some(how);
      timer, killWaitTimer, heartbeatTimer := false, false, false;
    }

    method WriteLog()
      modifies this`lateWrites
      ensures State() == LogWrite(old(State()))
    {
      if settled.Some? {
        lateWrites := lateWrites + 1;
      }
    }

    method OnData(text: string, fromStdout: bool)
      modifies this
      ensures State() == Step(options, old(State()), if fromStdout then Stdout(text) else Stderr(text))
    {
      if fromStdout {
        stdout := stdout + text;
      } else {
        stderr := stderr + text;
      }
      WriteLog();
    }

    method OnError()
      modifies this
      ensures State() == Step(options, old(State()), Error)
    {
      Settle(Rejected(SpawnFailed));
    }

    method OnClose(exitCode: Option<int>)
      modifies this
      ensures State() == Step(options, old(State()), Close(exitCode))
    {
      var code := match exitCode case Some(c) => c case None => 1;
      if timedOut {
        Settle(Rejected(TimedOut));
      } else if options.check && code != 0 {
        Settle(Rejected(Failed(code)));
      } else {
        Settle(Resolved(code, stdout, stderr));
      }
    }

    method OnTimeout(killFails: bool)
      requires timer
      modifies this
      ensures State() == Step(options, old(State()), Timeout(killFails))
    {
      timer := false;
      timedOut := true;
      WriteLog();
      if killFails {
        OnError();
      }
      killWaitTimer := true;
    }

    method OnKillWaitOver()
      requires killWaitTimer
      modifies this
      ensures State() == Step(options, old(State()), KillWaitOver)
    {
      killWaitTimer := false;
      Settle(Rejected(NotTerminated));
    }

    method OnHeartbeat()
      requires heartbeatTimer
      modifies this
      ensures State() == Step(options, old(State()), Heartbeat)
    {
      WriteLog();
    }
  }
}
