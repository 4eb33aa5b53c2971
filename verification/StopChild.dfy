/** Teardown of the benchmarked gateway process: SIGTERM, a grace period, SIGKILL, and
    a second grace period, against a child that may exit at any moment. */
module StopChild {
  import opened Text

  datatype Exit = Exit(exitCode: Option<int>, signal: Option<string>)

  /** When the child exits: its exit properties are set first, the event follows. */
  datatype Child = NeverExits | Exits(setAt: nat, eventAt: nat, exit: Exit)

  predicate Sound(child: Child) {
    child.Exits? ==> child.setAt <= child.eventAt && (child.exit.exitCode.Some? || child.exit.signal.Some?)
  }

  /** How the platform answers the signals: to the process group, then to the child alone. */
  datatype Platform = Platform(groupReachable: bool, groupAccepts: bool, childAccepts: bool)

  datatype Signal = SIGTERM | SIGKILL

  datatype Sent = Sent(signal: Signal, at: nat, delivered: bool)

  datatype StopResult = StopResult(exitCode: Option<int>, signal: Option<string>, exitedBeforeTeardown: bool)

  function KillProcessTree(p: Platform): bool {
    if p.groupReachable && p.groupAccepts then true else p.childAccepts
  }

  function CurrentExit(child: Child, at: nat): Option<Exit> {
    if child.Exits? && child.setAt <= at then Some(child.exit) else None
  }

  /** The exit event, if a listener added at `from` has seen it by `at`. */
  function ObservedExit(child: Child, from: nat, at: nat): Option<Exit> {
    if child.Exits? && from <= child.eventAt <= at then Some(child.exit) else None
  }

  /** The race of the exit event against a timer, and when it ends. */
  method WaitForExit(child: Child, from: nat, start: nat, ms: nat) returns (exit: Option<Exit>, at: nat)
    requires from <= start
    ensures exit.Some? <==> child.Exits? && from <= child.eventAt <= start + ms
    ensures exit.Some? ==> exit.value == child.exit
    ensures at == if exit.None? then start + ms else if child.eventAt > start then child.eventAt else start
  {
    exit := ObservedExit(child, from, start + ms);
    at := if exit.None? then start + ms else if child.eventAt > start then child.eventAt else start;
  }

  function Or<T>(a: Option<T>, b: Option<T>): Option<T> {
    if a.Some? then a else b
  }

  function Report(exit: Exit, exitedBeforeTeardown: bool): StopResult {
    StopResult(exit.exitCode, exit.signal, exitedBeforeTeardown)
  }

  /** No exit is known at `at`: the event never comes before the properties. */
  predicate Unseen(child: Child, at: nat) {
    child.Exits? ==> at < child.setAt
  }

  /** The process group took the signal, or else the child alone did. */
  ghost predicate Accepted(p: Platform) {
    (p.groupReachable && p.groupAccepts) || p.childAccepts
  }

  predicate Delivered(log: seq<Sent>) {
    exists i :: 0 <= i < |log| && log[i] == Sent(SIGTERM, log[i].at, true)
  }

  /** `called` is when the teardown starts and `turned` when the next turn of the event loop
      comes. The log lists the teardown signals sent; `released` tells whether the child was
      given up on; `ended` is when the result is known. */
  method Stop(child: Child, onTerm: Platform, onKill: Platform, called: nat, turned: nat, teardownGraceMs: nat, killGraceMs: nat)
    returns (result: StopResult, log: seq<Sent>, released: bool, ended: nat)
    requires Sound(child) && called <= turned
    // at most one SIGTERM, then at most one SIGKILL, each exactly when it is called for
    ensures log == [] <==> !Unseen(child, turned)
    ensures log != [] ==> log[0] == Sent(SIGTERM, turned, Accepted(onTerm))
    ensures |log| <= 2 && (|log| == 2 ==> log[1] == Sent(SIGKILL, turned + teardownGraceMs, Accepted(onKill)))
    ensures |log| == 2 <==> Unseen(child, turned + teardownGraceMs) && Accepted(onTerm)
    // bounded: at once if the exit is known, and else with the exit event or when the grace periods are over
    ensures log == [] ==> ended == if Unseen(child, called) then turned else called
    ensures log != [] ==>
              var limit := turned + teardownGraceMs + if |log| == 2 then killGraceMs else 0;
              ended == if child.Exits? && child.eventAt <= limit then child.eventAt else limit
    // faithful
    ensures result.exitedBeforeTeardown <==> !Delivered(log)
    ensures result.exitCode.Some? ==> child.Exits? && child.setAt <= ended && result.exitCode == child.exit.exitCode
    ensures released <==> Unseen(child, ended)
    ensures !released ==> Exit(result.exitCode, result.signal) == child.exit
    ensures released ==> result.exitCode == None && result.signal == if |log| == 2 then Some("SIGKILL") else None
  {
    log, released := [], false;
    var existing := CurrentExit(child, called);
    if existing.Some? {
      return Report(existing.value, true), log, released, called;
    }
    var queued := Or(ObservedExit(child, called, turned), CurrentExit(child, turned));
    if queued.Some? {
      return Report(queued.value, true), log, released, turned;
    }
    var sent := KillProcessTree(onTerm);
    log := [Sent(SIGTERM, turned, sent)];
    assert sent ==> log[0] == Sent(SIGTERM, log[0].at, true);
    var graceful, at := WaitForExit(child, called, turned, teardownGraceMs);
    if graceful.Some? {
      return Report(graceful.value, !sent), log, released, at;
    }
    var postGrace := Or(CurrentExit(child, at), ObservedExit(child, called, at));
    if postGrace.Some? {
      return Report(postGrace.value, !sent), log, released, at;
    }
    if !sent {
      return StopResult(None, None, true), log, true, at;
    }
    log := log + [Sent(SIGKILL, at, KillProcessTree(onKill))];
    assert log[0] == Sent(SIGTERM, log[0].at, true);
    var killed;
    killed, at := WaitForExit(child, called, at, killGraceMs);
    var final := Or(killed, Or(CurrentExit(child, at), ObservedExit(child, called, at)));
    if final.Some? {
      return Report(final.value, false), log, released, at;
    }
    return StopResult(None, Some("SIGKILL"), false), log, true, at;
  }
}
