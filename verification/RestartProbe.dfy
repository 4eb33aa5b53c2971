/** The probe loop that watches a gateway go down and come back after a restart. */
module RestartProbe {
  import opened Text

  /** One probe: the HTTP status and error kind it saw, and when, counted from the signal. */
  datatype Attempt = Attempt(status: Option<int>, errorKind: Option<string>, ms: int)

  /** One turn of the loop, as the environment decides it: the deadline has passed, the
      process is done, the iteration is done, and what a probe would see. */
  datatype Turn = Turn(pastDeadline: bool, processDone: bool, done: bool, attempt: Attempt)

  datatype Transition = Transition(ms: int, status: Option<int>, errorKind: Option<string>)

  datatype ProbeResult = ProbeResult(
    downtimeMs: Option<int>, firstErrorKind: Option<string>, firstRecoveryMs: Option<int>,
    ms: Option<int>, status: Option<int>, transitions: seq<Transition>, unavailableMs: Option<int>)

  predicate Succeeded(a: Attempt) {
    a.status == Some(200)
  }

  function State(a: Attempt): (Option<int>, Option<string>) {
    (a.status, a.errorKind)
  }

  /** The attempts with consecutive equal states removed. */
  function Transitions(history: seq<Attempt>): seq<Transition> {
    if history == [] then []
    else
      var n, last := |history|, history[|history| - 1];
      Transitions(history[..n - 1])
      + if n == 1 || State(history[n - 2]) != State(last) then [Transition(last.ms, last.status, last.errorKind)] else []
  }

  ghost predicate FirstFailure(history: seq<Attempt>, i: int) {
    0 <= i < |history| && !Succeeded(history[i]) && forall k | 0 <= k < i :: Succeeded(history[k])
  }

  /** The first failure and the first success after it. */
  ghost predicate Recovered(history: seq<Attempt>, failed: int, recovered: int) {
    && FirstFailure(history, failed)
    && failed < recovered < |history| && Succeeded(history[recovered])
    && forall k | failed < k < recovered :: !Succeeded(history[k])
  }

  ghost predicate FirstFailureAt(history: seq<Attempt>, ms: Option<int>) {
    if ms.None? then forall i | 0 <= i < |history| :: Succeeded(history[i])
    else exists i :: FirstFailure(history, i) && history[i].ms == ms.value
  }

  ghost predicate FirstError(history: seq<Attempt>, kind: Option<string>) {
    if kind.None? then forall i | 0 <= i < |history| :: history[i].errorKind.None?
    else exists i | 0 <= i < |history| :: history[i].errorKind == kind && forall k | 0 <= k < i :: history[k].errorKind.None?
  }

  ghost predicate Downtime(history: seq<Attempt>, downtime: int, recovery: int) {
    exists failed, recovered :: Recovered(history, failed, recovered)
      && recovery == history[recovered].ms && downtime == history[recovered].ms - history[failed].ms
  }

  /** What the result says about the attempts made. */
  ghost predicate Reports(r: ProbeResult, history: seq<Attempt>) {
    var n := |history|;
    && r.transitions == Transitions(history)
    && r.ms == (if n > 0 && Succeeded(history[n - 1]) then Some(history[n - 1].ms) else None)
    && r.status == (if n == 0 then None else history[n - 1].status)
    && FirstFailureAt(history, r.unavailableMs)
    && FirstError(history, r.firstErrorKind)
    && (r.firstRecoveryMs.Some? <==> r.downtimeMs.Some?)
    && (r.downtimeMs.None? ==> forall failed, recovered :: !Recovered(history, failed, recovered))
    && (r.downtimeMs.Some? ==> Downtime(history, r.downtimeMs.value, r.firstRecoveryMs.value))
  }

  ghost predicate Made(history: seq<Attempt>, turns: seq<Turn>) {
    |history| <= |turns| && forall i | 0 <= i < |history| :: history[i] == turns[i].attempt
  }

  /** No attempt was made past the deadline, after the process was done or after the recovery, or once the
      iteration was done with nothing but successes. */
  ghost predicate StopsInTime(history: seq<Attempt>, turns: seq<Turn>)
    requires Made(history, turns)
  {
    && (forall i | 0 <= i < |history| :: !turns[i].pastDeadline && !turns[i].processDone)
    && (forall i | 0 < i < |history| && turns[i].done :: exists k | 0 <= k < i :: !Succeeded(history[k]))
    && (forall failed, recovered :: Recovered(history, failed, recovered) ==> recovered == |history| - 1)
  }

  /** Why no further attempt was made. */
  ghost predicate MayStop(history: seq<Attempt>, turns: seq<Turn>, r: ProbeResult)
    requires Made(history, turns)
  {
    || r.downtimeMs.Some?
    || |history| == |turns|
    || turns[|history|].pastDeadline || turns[|history|].processDone
    || (turns[|history|].done && history != [] && forall i | 0 <= i < |history| :: Succeeded(history[i]))
  }

  /** The loop's variables. */
  datatype Seen = Seen(
    firstErrorKind: Option<string>, unavailableMs: Option<int>, lastSuccessMs: Option<int>,
    lastStatus: Option<int>, lastState: Option<(Option<int>, Option<string>)>, transitions: seq<Transition>)

  ghost predicate Tracks(s: Seen, history: seq<Attempt>) {
    var n := |history|;
    && s.transitions == Transitions(history)
    && s.lastState == (if n == 0 then None else Some(State(history[n - 1])))
    && s.lastStatus == (if n == 0 then None else history[n - 1].status)
    && FirstError(history, s.firstErrorKind)
    && FirstFailureAt(history, s.unavailableMs)
    && (s.unavailableMs.None? ==> s.lastSuccessMs == if n == 0 then None else Some(history[n - 1].ms))
    && (s.unavailableMs.Some? && n > 0 && Succeeded(history[n - 1]) ==> s.lastSuccessMs == Some(history[n - 1].ms))
  }

  method Observe(s: Seen, a: Attempt, ghost history: seq<Attempt>) returns (s': Seen)
    requires Tracks(s, history) && NotRecovered(history)
    ensures Tracks(s', history + [a])
    ensures Succeeded(a) && s'.unavailableMs.Some? ==> Downtime(history + [a], a.ms - s'.unavailableMs.value, a.ms)
    ensures !(Succeeded(a) && s'.unavailableMs.Some?) ==> NotRecovered(history + [a])
  {
    assert (history + [a])[..|history|] == history;
    OneMoreError(history, a, s.firstErrorKind);
    OneMoreAttempt(history, a, s.unavailableMs);
    s' := s.(lastStatus := a.status);
    if s.lastState != Some(State(a)) {
      s' := s'.(transitions := s.transitions + [Transition(a.ms, a.status, a.errorKind)], lastState := Some(State(a)));
    }
    if a.errorKind.Some? && s.firstErrorKind.None? {
      s' := s'.(firstErrorKind := a.errorKind);
    }
    if !Succeeded(a) && s.unavailableMs.None? {
      s' := s'.(unavailableMs := Some(a.ms));
    }
    if Succeeded(a) {
      s' := s'.(lastSuccessMs := Some(a.ms));
    }
  }

  /** The loop over a script of turns; the script running out is the deadline. `history` is
      the list of attempts made, in order. */
  method WaitForRestartProbe(turns: seq<Turn>) returns (result: ProbeResult, history: seq<Attempt>)
    ensures Made(history, turns) && MayStop(history, turns, result) && StopsInTime(history, turns)
    ensures Reports(result, history)
  {
    history := [];
    var s := Seen(None, None, None, None, None, []);
    for i := 0 to |turns|
      invariant |history| == i && Going(s, history, turns)
    {
      var turn := turns[i];
      if turn.pastDeadline || turn.processDone {
        break;
      }
      if turn.done && s.unavailableMs.None? && s.lastSuccessMs.Some? {
        StoppedUp(s, history);
        return ProbeResult(None, s.firstErrorKind, None, s.lastSuccessMs, Some(200), s.transitions, None), history;
      }
      var a := turn.attempt;
      GoesOn(s, history, turns);
      s := Observe(s, a, history);
      history := history + [a];
      if Succeeded(a) && s.unavailableMs.Some? {
        Recovery(s, history);
        return ProbeResult(Some(a.ms - s.unavailableMs.value), s.firstErrorKind, Some(a.ms), Some(a.ms),
                           a.status, s.transitions, s.unavailableMs), history;
      }
    }
    StoppedHere(s, history);
    return ProbeResult(None, s.firstErrorKind, None, if s.unavailableMs.None? then s.lastSuccessMs else None,
                       s.lastStatus, s.transitions, s.unavailableMs), history;
  }

  /** What holds while the loop goes on. */
  ghost predicate Going(s: Seen, history: seq<Attempt>, turns: seq<Turn>) {
    Made(history, turns) && StopsInTime(history, turns) && Tracks(s, history) && NotRecovered(history)
  }

  lemma GoesOn(s: Seen, history: seq<Attempt>, turns: seq<Turn>)
    requires Going(s, history, turns) && |history| < |turns|
    requires var turn := turns[|history|];
             !turn.pastDeadline && !turn.processDone && !(turn.done && s.unavailableMs.None? && s.lastSuccessMs.Some?)
    ensures Made(history + [turns[|history|].attempt], turns) && StopsInTime(history + [turns[|history|].attempt], turns)
  {
    var n, after := |history|, history + [turns[|history|].attempt];
    forall i | 0 < i < |after| && turns[i].done ensures exists k | 0 <= k < i :: !Succeeded(after[k]) {
      if i < n {
        var k :| 0 <= k < i && !Succeeded(history[k]);
        assert !Succeeded(after[k]);
      } else {
        FailedBefore(s, history);
        var k :| 0 <= k < n && !Succeeded(history[k]);
        assert !Succeeded(after[k]);
      }
    }
    forall failed, recovered ensures Recovered(after, failed, recovered) ==> recovered == n {
      SameFirstFailure(history, turns[n].attempt, failed);
    }
  }

  lemma SameFirstFailure(history: seq<Attempt>, a: Attempt, i: int)
    ensures i < |history| ==> (FirstFailure(history + [a], i) <==> FirstFailure(history, i))
  {
    assert forall k | 0 <= k < |history| :: (history + [a])[k] == history[k];
  }

  lemma FailedBefore(s: Seen, history: seq<Attempt>)
    requires Tracks(s, history) && history != [] && !(s.unavailableMs.None? && s.lastSuccessMs.Some?)
    ensures exists k | 0 <= k < |history| :: !Succeeded(history[k])
  {
    var i :| FirstFailure(history, i) && history[i].ms == s.unavailableMs.value;
  }

  lemma Recovery(s: Seen, history: seq<Attempt>)
    requires Tracks(s, history) && history != [] && s.unavailableMs.Some? && Succeeded(history[|history| - 1])
    requires Downtime(history, history[|history| - 1].ms - s.unavailableMs.value, history[|history| - 1].ms)
    ensures var a := history[|history| - 1];
            Reports(ProbeResult(Some(a.ms - s.unavailableMs.value), s.firstErrorKind, Some(a.ms), Some(a.ms),
                                a.status, s.transitions, s.unavailableMs), history)
  {
  }

  lemma StoppedUp(s: Seen, history: seq<Attempt>)
    requires Tracks(s, history) && NotRecovered(history) && s.unavailableMs.None? && s.lastSuccessMs.Some?
    ensures Reports(ProbeResult(None, s.firstErrorKind, None, s.lastSuccessMs, Some(200), s.transitions, None), history)
    ensures history != [] && forall i | 0 <= i < |history| :: Succeeded(history[i])
  {
    NothingRecovered(s, history);
  }

  lemma StoppedHere(s: Seen, history: seq<Attempt>)
    requires Tracks(s, history) && NotRecovered(history)
    ensures Reports(ProbeResult(None, s.firstErrorKind, None, if s.unavailableMs.None? then s.lastSuccessMs else None,
                                s.lastStatus, s.transitions, s.unavailableMs), history)
  {
    NothingRecovered(s, history);
  }

  lemma NothingRecovered(s: Seen, history: seq<Attempt>)
    requires Tracks(s, history) && NotRecovered(history)
    ensures forall failed, recovered :: !Recovered(history, failed, recovered)
    ensures s.unavailableMs.Some? ==> history != [] && !Succeeded(history[|history| - 1])
    ensures s.unavailableMs.None? && history != [] ==> Succeeded(history[|history| - 1])
  {
    if s.unavailableMs.Some? {
      var i :| FirstFailure(history, i) && history[i].ms == s.unavailableMs.value;
      assert !Succeeded(history[|history| - 1]);
    }
  }

  ghost predicate NotRecovered(history: seq<Attempt>) {
    forall i, k :: FirstFailure(history, i) && i <= k < |history| ==> !Succeeded(history[k])
  }

  lemma OneMoreError(history: seq<Attempt>, a: Attempt, before: Option<string>)
    requires FirstError(history, before)
    ensures FirstError(history + [a], if a.errorKind.Some? && before.None? then a.errorKind else before)
  {
    var after, kind := history + [a], if a.errorKind.Some? && before.None? then a.errorKind else before;
    if before.Some? {
      var i :| 0 <= i < |history| && history[i].errorKind == kind && forall k | 0 <= k < i :: history[k].errorKind.None?;
      assert after[i].errorKind == kind;
    } else if kind.Some? {
      assert after[|history|].errorKind == kind;
    }
  }

  /** How one more attempt bears on the first failure and on recovery. */
  lemma OneMoreAttempt(history: seq<Attempt>, a: Attempt, ms: Option<int>)
    requires FirstFailureAt(history, ms) && NotRecovered(history)
    ensures var after := history + [a];
            && FirstFailureAt(after, if !Succeeded(a) && ms.None? then Some(a.ms) else ms)
            && (Succeeded(a) && ms.Some? ==> Downtime(after, a.ms - ms.value, a.ms))
            && (!(Succeeded(a) && ms.Some?) ==> NotRecovered(after))
  {
    var after := history + [a];
    if ms.Some? {
      var i :| FirstFailure(history, i) && history[i].ms == ms.value;
      assert FirstFailure(after, i);
      if Succeeded(a) {
        assert Recovered(after, i, |history|);
      }
    } else if !Succeeded(a) {
      assert FirstFailure(after, |history|);
    }
    forall i, k | FirstFailure(after, i) && i <= k < |after| && !(Succeeded(a) && ms.Some?) ensures !Succeeded(after[k]) {
      if i < |history| {
        assert FirstFailure(history, i);
      }
    }
  }

  ghost predicate NonDecreasing(history: seq<Attempt>) {
    forall i, j | 0 <= i < j < |history| :: history[i].ms <= history[j].ms
  }

  /** With a clock that never runs back the downtime is never negative. */
  lemma DowntimeNonNegative(r: ProbeResult, history: seq<Attempt>)
    requires Reports(r, history) && NonDecreasing(history) && r.downtimeMs.Some?
    ensures r.downtimeMs.value >= 0
  {
    var failed, recovered :| Recovered(history, failed, recovered)
      && r.firstRecoveryMs.value == history[recovered].ms && r.downtimeMs.value == history[recovered].ms - history[failed].ms;
  }

  /** Two reports on the same attempts agree on the downtime. */
  lemma DowntimeDetermined(history: seq<Attempt>, d: int, r: int, d': int, r': int)
    requires Downtime(history, d, r) && Downtime(history, d', r')
    ensures d == d' && r == r'
  {
    var f, s :| Recovered(history, f, s) && r == history[s].ms && d == history[s].ms - history[f].ms;
    var f', s' :| Recovered(history, f', s') && r' == history[s'].ms && d' == history[s'].ms - history[f'].ms;
    assert f == f';
    assert s == s';
  }

  lemma FirstsDetermined(history: seq<Attempt>, ms: Option<int>, ms': Option<int>, kind: Option<string>, kind': Option<string>)
    requires FirstFailureAt(history, ms) && FirstFailureAt(history, ms')
    requires FirstError(history, kind) && FirstError(history, kind')
    ensures ms == ms' && kind == kind'
  {
    if ms.Some? && ms'.Some? {
      var i :| FirstFailure(history, i) && history[i].ms == ms.value;
      var j :| FirstFailure(history, j) && history[j].ms == ms'.value;
      assert i == j;
    }
    if kind.Some? && kind'.Some? {
      var i :| 0 <= i < |history| && history[i].errorKind == kind && forall k | 0 <= k < i :: history[k].errorKind.None?;
      var j :| 0 <= j < |history| && history[j].errorKind == kind' && forall k | 0 <= k < j :: history[k].errorKind.None?;
      assert i == j;
    }
  }

  /** A downtime is reported exactly when some failure was followed by a success. */
  lemma RecoveryReported(history: seq<Attempt>, r: ProbeResult)
    requires Reports(r, history)
    ensures r.downtimeMs.Some? <==> exists failed, recovered :: Recovered(history, failed, recovered)
  {
    if r.downtimeMs.Some? {
      var f, s :| Recovered(history, f, s) && r.firstRecoveryMs.value == history[s].ms && r.downtimeMs.value == history[s].ms - history[f].ms;
    }
  }

  /** The attempts determine the whole report. */
  lemma ReportDetermined(history: seq<Attempt>, r: ProbeResult, r': ProbeResult)
    requires Reports(r, history) && Reports(r', history)
    ensures r == r'
  {
    FirstsDetermined(history, r.unavailableMs, r'.unavailableMs, r.firstErrorKind, r'.firstErrorKind);
    RecoveryReported(history, r);
    RecoveryReported(history, r');
    if r.downtimeMs.Some? {
      DowntimeDetermined(history, r.downtimeMs.value, r.firstRecoveryMs.value, r'.downtimeMs.value, r'.firstRecoveryMs.value);
    }
  }

  /** Attempt `i` is the first, or differs in status or error kind from the one before it. */
  predicate Changes(history: seq<Attempt>, i: int) {
    0 <= i < |history|
    && (i == 0 || history[i].status != history[i - 1].status || history[i].errorKind != history[i - 1].errorKind)
  }

  ghost function Changing(history: seq<Attempt>, n: nat): seq<nat> {
    if n == 0 then [] else Changing(history, n - 1) + if Changes(history, n - 1) then [n - 1] else []
  }

  lemma {:induction false} ChangingExactly(history: seq<Attempt>, n: nat)
    ensures forall j, k | 0 <= j < k < |Changing(history, n)| :: Changing(history, n)[j] < Changing(history, n)[k]
    ensures forall i: nat :: i in Changing(history, n) <==> i < n && Changes(history, i)
  {
    if n == 0 {
    } else {
      ChangingExactly(history, n - 1);
      var before := Changing(history, n - 1);
      assert forall k | 0 <= k < |before| :: before[k] in before;
    }
  }

  lemma {:induction false} ChangingInInit(history: seq<Attempt>, n: nat)
    requires n < |history|
    ensures Changing(history[..|history| - 1], n) == Changing(history, n)
  {
    if n > 0 {
      ChangingInInit(history, n - 1);
    }
  }

  /** Entry `k` of the list is the transition that attempt `order[k]` makes. */
  ghost predicate ListedAt(ts: seq<Transition>, history: seq<Attempt>, order: seq<nat>) {
    && |ts| == |order|
    && forall k | 0 <= k < |order| ::
         && order[k] < |history|
         && ts[k] == Transition(history[order[k]].ms, history[order[k]].status, history[order[k]].errorKind)
  }

  lemma {:induction false} ChangingListed(history: seq<Attempt>)
    ensures ListedAt(Transitions(history), history, Changing(history, |history|))
  {
    if history == [] {
    } else {
      var n := |history| - 1;
      ChangingListed(history[..n]);
      ChangingInInit(history, n);
      ListedInMore(Transitions(history[..n]), history, Changing(history, n));
    }
  }

  lemma ListedInMore(ts: seq<Transition>, history: seq<Attempt>, order: seq<nat>)
    requires history != [] && ListedAt(ts, history[..|history| - 1], order)
    ensures ListedAt(ts, history, order)
  {
  }

  /** The transitions listed are those attempts, all of them, once each and in order, with their time, status and error kind. */
  lemma TransitionsExactly(history: seq<Attempt>) returns (order: seq<nat>)
    ensures forall j, k | 0 <= j < k < |order| :: order[j] < order[k]
    ensures forall i: nat :: i in order <==> Changes(history, i)
    ensures ListedAt(Transitions(history), history, order)
  {
    order := Changing(history, |history|);
    ChangingExactly(history, |history|);
    ChangingListed(history);
  }

  /** A transition is listed if and only if an attempt made it. */
  lemma TransitionListed(history: seq<Attempt>, t: Transition)
    ensures t in Transitions(history) <==>
              exists i :: Changes(history, i) && t == Transition(history[i].ms, history[i].status, history[i].errorKind)
  {
    var order := TransitionsExactly(history);
    if i :| Changes(history, i) && t == Transition(history[i].ms, history[i].status, history[i].errorKind) {
      assert i in order;
      var k :| 0 <= k < |order| && order[k] == i;
      assert Transitions(history)[k] == t;
    }
    if t in Transitions(history) {
      var k :| 0 <= k < |order| && Transitions(history)[k] == t;
      assert order[k] in order;
    }
  }

  /** Each transition differs in state from the one before it. */
  lemma {:induction false} TransitionsAlternate(history: seq<Attempt>)
    ensures var ts := Transitions(history);
            && (history != [] ==> ts != [] && (ts[|ts| - 1].status, ts[|ts| - 1].errorKind) == State(history[|history| - 1]))
            && forall i | 0 < i < |ts| :: (ts[i].status, ts[i].errorKind) != (ts[i - 1].status, ts[i - 1].errorKind)
  {
    if history == [] {
    } else {
      TransitionsAlternate(history[..|history| - 1]);
    }
  }
}
