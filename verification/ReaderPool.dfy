/** The guardrail's pool of reader workers that share one index counter and one
    output array. The scheduler is free: any worker that is not done may move. */
module ReaderPool {
  import opened Text

  const FILE_READ_CONCURRENCY: nat := 24

  datatype SourceFile = SourceFile(relativePath: string, source: string)

  /** The paths to read, what the disk holds, and the paths relative to the repository. */
  datatype Job = Job(paths: seq<string>, files: map<string, string>, relative: string -> string)

  /** Between two moves a worker is about to claim an index, waits for a read, or is done. */
  datatype Worker = Ready | Reading(index: nat) | Done

  datatype Claim = Claim(index: nat, worker: nat)

  datatype State = State(workers: seq<Worker>, nextIndex: nat, claims: seq<Claim>, output: seq<Option<SourceFile>>)

  /** What one path contributes: nothing if it is empty or cannot be read. */
  function Read(job: Job, path: string): Option<SourceFile> {
    if path != "" && path in job.files then Some(SourceFile(job.relative(path), job.files[path])) else None
  }

  function Present(entries: seq<Option<SourceFile>>): seq<SourceFile> {
    if entries == [] then []
    else Present(entries[..|entries| - 1]) + match entries[|entries| - 1] case Some(f) => [f] case None => []
  }

  function SequentialRead(job: Job): seq<SourceFile> {
    Present(seq(|job.paths|, i requires 0 <= i < |job.paths| => Read(job, job.paths[i])))
  }

  /** Closing the gaps keeps the order and drops nothing that is there. */
  lemma {:induction false} PresentConcat(a: seq<Option<SourceFile>>, b: seq<Option<SourceFile>>)
    ensures Present(a + b) == Present(a) + Present(b)
  {
    if b == [] {
      assert a + b == a;
    } else {
      var n := |b| - 1;
      assert (a + b)[..|a + b| - 1] == a + b[..n] && (a + b)[|a + b| - 1] == b[n];
      PresentConcat(a, b[..n]);
    }
  }

  lemma PresentOne(entry: Option<SourceFile>)
    ensures Present([entry]) == match entry case Some(f) => [f] case None => []
  {
    assert [entry][..0] == [];
  }

  predicate Readable(job: Job, i: int) {
    0 <= i < |job.paths| && job.paths[i] != "" && job.paths[i] in job.files
  }

  /** The sequential read is the files of the readable paths, all of them, once each and in the order of the paths,
      each with its relative path and what the disk holds. */
  lemma SequentialExactly(job: Job) returns (order: seq<nat>)
    ensures |order| == |SequentialRead(job)|
    ensures forall j, k | 0 <= j < k < |order| :: order[j] < order[k]
    ensures forall i: nat :: i in order <==> Readable(job, i)
    ensures forall k | 0 <= k < |order| && Readable(job, order[k]) ::
              SequentialRead(job)[k] == SourceFile(job.relative(job.paths[order[k]]), job.files[job.paths[order[k]]])
  {
    order := ReadableUpTo(job, |job.paths|);
    assert seq(|job.paths|, i requires 0 <= i < |job.paths| => Read(job, job.paths[i]))
        == seq(|job.paths|, i requires 0 <= i < |job.paths| => Read(job, job.paths[i]))[..|job.paths|];
  }

  lemma {:induction false} ReadableUpTo(job: Job, n: nat) returns (order: seq<nat>)
    requires n <= |job.paths|
    ensures var read := Present(seq(|job.paths|, i requires 0 <= i < |job.paths| => Read(job, job.paths[i]))[..n]);
            && |order| == |read|
            && forall k | 0 <= k < |order| && Readable(job, order[k]) ::
                 read[k] == SourceFile(job.relative(job.paths[order[k]]), job.files[job.paths[order[k]]])
    ensures forall j, k | 0 <= j < k < |order| :: order[j] < order[k]
    ensures forall i: nat :: i in order <==> i < n && Readable(job, i)
  {
    if n == 0 {
      order := [];
    } else {
      var entries := seq(|job.paths|, i requires 0 <= i < |job.paths| => Read(job, job.paths[i]));
      var before := ReadableUpTo(job, n - 1);
      order := before + if Readable(job, n - 1) then [n - 1] else [];
      assert entries[..n] == entries[..n - 1] + [entries[n - 1]];
      PresentConcat(entries[..n - 1], [entries[n - 1]]);
      PresentOne(entries[n - 1]);
      assert forall k | 0 <= k < |before| :: before[k] in before;
    }
  }

  function Min(a: nat, b: nat): nat {
    if a < b then a else b
  }

  // ----- the pool as a machine: one move of one worker at a time -----

  function Start(job: Job): State {
    State(seq(Min(FILE_READ_CONCURRENCY, if |job.paths| > 1 then |job.paths| else 1), _ => Ready), 0, [], seq(|job.paths|, _ => None))
  }

  /** A worker takes the next index, and starts a read unless there is no such path. */
  function ClaimStep(job: Job, s: State, w: nat): State
    requires w < |s.workers|
  {
    var index := s.nextIndex;
    if index >= |job.paths| then s.(nextIndex := index + 1, workers := s.workers[w := Done])
    else
      s.(nextIndex := index + 1, claims := s.claims + [Claim(index, w)],
         workers := if job.paths[index] != "" then s.workers[w := Reading(index)] else s.workers)
  }

  /** A read completes: its file is entered at the worker's own index, or nothing is. */
  function CompleteStep(job: Job, s: State, w: nat): State
    requires w < |s.workers| && s.workers[w].Reading?
  {
    var i := s.workers[w].index;
    s.(workers := s.workers[w := Ready],
       output := if i < |job.paths| && i < |s.output| && Read(job, job.paths[i]).Some?
                 then s.output[i := Read(job, job.paths[i])] else s.output)
  }

  predicate CanMove(s: State, w: nat) {
    w < |s.workers| && !s.workers[w].Done?
  }

  function Step(job: Job, s: State, w: nat): State {
    if !CanMove(s, w) then s
    else if s.workers[w].Ready? then ClaimStep(job, s, w)
    else CompleteStep(job, s, w)
  }

  function Run(job: Job, schedule: seq<nat>): State {
    if schedule == [] then Start(job)
    else Step(job, Run(job, schedule[..|schedule| - 1]), schedule[|schedule| - 1])
  }

  /** There is a worker for each path, up to 24, and one even for no path; all of them start out ready. */
  lemma {:induction false} WorkersExactly(job: Job, schedule: seq<nat>)
    ensures var workers := Run(job, schedule).workers;
            && |workers| == (if |job.paths| == 0 then 1 else if |job.paths| > 24 then 24 else |job.paths|)
            && (schedule == [] ==> forall w | 0 <= w < |workers| :: workers[w].Ready?)
  {
    if schedule == [] {
    } else {
      WorkersExactly(job, schedule[..|schedule| - 1]);
    }
  }

  function InFlight(workers: seq<Worker>): nat {
    if workers == [] then 0 else (if workers[0].Reading? then 1 else 0) + InFlight(workers[1..])
  }

  /** The most reads in flight at any moment of a run. */
  function Peak(job: Job, schedule: seq<nat>): nat {
    var now := InFlight(Run(job, schedule).workers);
    if schedule == [] then now
    else
      var before := Peak(job, schedule[..|schedule| - 1]);
      if now > before then now else before
  }

  ghost predicate Quiet(s: State) {
    forall w | 0 <= w < |s.workers| :: s.workers[w].Done?
  }

  // ----- what every schedule keeps -----

  predicate IsReading(workers: seq<Worker>, w: int, i: nat) {
    0 <= w < |workers| && workers[w] == Reading(i)
  }

  /** Every claimed index is written or being read by the worker that claimed it, and nothing else is. */
  ghost predicate Shared(job: Job, s: State) {
    && |s.output| == |job.paths| && |s.claims| <= |job.paths|
    && (forall w | 0 <= w < |s.workers| && s.workers[w].Reading? ::
          s.workers[w].index < |s.claims| && s.claims[s.workers[w].index].worker == w)
    && (forall i | 0 <= i < |s.claims| ::
          s.output[i] == Read(job, job.paths[i]) || (s.output[i] == None && exists w :: IsReading(s.workers, w, i)))
    && (forall i | |s.claims| <= i < |job.paths| :: s.output[i] == None)
  }

  /** Indices are claimed once each and in order, and nobody is done before all are claimed. */
  ghost predicate Sound(job: Job, s: State) {
    && 1 <= |s.workers| <= FILE_READ_CONCURRENCY
    && |s.claims| == Min(s.nextIndex, |job.paths|)
    && (forall i | 0 <= i < |s.claims| :: s.claims[i].index == i)
    && ((exists w :: 0 <= w < |s.workers| && s.workers[w].Done?) ==> s.nextIndex >= |job.paths|)
    && Shared(job, s)
  }

  lemma ClaimKeepsSound(job: Job, s: State, w: nat)
    requires Sound(job, s) && w < |s.workers| && s.workers[w].Ready?
    ensures Sound(job, ClaimStep(job, s, w))
  {
    var s' := ClaimStep(job, s, w);
    forall i | 0 <= i < |s'.claims|
      ensures s'.output[i] == Read(job, job.paths[i]) || (s'.output[i] == None && exists v :: IsReading(s'.workers, v, i))
    {
      if i == |s.claims| {
        assert job.paths[i] != "" ==> IsReading(s'.workers, w, i);
      } else if s.output[i] != Read(job, job.paths[i]) {
        var v :| IsReading(s.workers, v, i);
        assert IsReading(s'.workers, v, i);
      }
    }
  }

  lemma CompleteKeepsSound(job: Job, s: State, w: nat)
    requires Sound(job, s) && w < |s.workers| && s.workers[w].Reading?
    ensures Sound(job, CompleteStep(job, s, w))
    ensures var i := s.workers[w].index;
            i < |s.output| && CompleteStep(job, s, w).output == s.output[i := Read(job, job.paths[i])]
  {
    var s' := CompleteStep(job, s, w);
    forall i | 0 <= i < |s'.claims|
      ensures s'.output[i] == Read(job, job.paths[i]) || (s'.output[i] == None && exists v :: IsReading(s'.workers, v, i))
    {
      if i != s.workers[w].index && s.output[i] != Read(job, job.paths[i]) {
        var v :| IsReading(s.workers, v, i);
        assert IsReading(s'.workers, v, i);
      }
    }
  }

  /** Whatever the schedule, indices are claimed once each and in order, and every claimed index
      is read, or being read by the worker that claimed it. */
  lemma {:induction false} EveryScheduleSound(job: Job, schedule: seq<nat>)
    ensures Sound(job, Run(job, schedule))
  {
    if schedule == [] {
    } else {
      var before, w := Run(job, schedule[..|schedule| - 1]), schedule[|schedule| - 1];
      EveryScheduleSound(job, schedule[..|schedule| - 1]);
      if CanMove(before, w) {
        if before.workers[w].Ready? {
          ClaimKeepsSound(job, before, w);
        } else {
          CompleteKeepsSound(job, before, w);
        }
      }
    }
  }

  lemma {:induction false} InFlightBounded(workers: seq<Worker>)
    ensures InFlight(workers) <= |workers|
  {
    if workers == [] {
    } else {
      InFlightBounded(workers[1..]);
    }
  }

  /** Whatever the schedule, no more than 24 reads are in flight at any moment. */
  lemma {:induction false} PeakBounded(job: Job, schedule: seq<nat>)
    ensures Peak(job, schedule) <= FILE_READ_CONCURRENCY
  {
    EveryScheduleSound(job, schedule);
    InFlightBounded(Run(job, schedule).workers);
    if schedule == [] {
    } else {
      PeakBounded(job, schedule[..|schedule| - 1]);
    }
  }

  /** Whatever the schedule, once every worker is done all indices were claimed, and the output
      without its gaps is the sequential read of the paths in order. */
  lemma QuietIsSequential(job: Job, schedule: seq<nat>)
    requires Quiet(Run(job, schedule))
    ensures var s := Run(job, schedule);
            |s.claims| == |job.paths| && Present(s.output) == SequentialRead(job)
  {
    var s := Run(job, schedule);
    EveryScheduleSound(job, schedule);
    assert s.workers[0].Done?;
    assert forall w, i :: !IsReading(s.workers, w, i);
    assert s.output == seq(|job.paths|, i requires 0 <= i < |job.paths| => Read(job, job.paths[i]));
  }

  // ----- every schedule ends -----

  function Weight(w: Worker): nat {
    match w case Reading(_) => 2 case Ready => 1 case Done => 0
  }

  function Work(workers: seq<Worker>): nat {
    if workers == [] then 0 else Weight(workers[0]) + Work(workers[1..])
  }

  function Remaining(job: Job, s: State): nat
    requires |s.claims| <= |job.paths|
  {
    3 * (|job.paths| - |s.claims|) + Work(s.workers)
  }

  lemma {:induction false} WorkUpdate(workers: seq<Worker>, w: nat, next: Worker)
    requires w < |workers|
    ensures Work(workers[w := next]) == Work(workers) - Weight(workers[w]) + Weight(next)
  {
    if w == 0 {
      assert workers[w := next][1..] == workers[1..];
    } else {
      WorkUpdate(workers[1..], w - 1, next);
      assert workers[w := next][1..] == workers[1..][w - 1 := next];
    }
  }

  lemma {:induction false} WorkBounded(workers: seq<Worker>)
    requires forall w | 0 <= w < |workers| :: workers[w].Ready?
    ensures Work(workers) == |workers|
  {
    if workers == [] {
    } else {
      WorkBounded(workers[1..]);
    }
  }

  /** Every move brings the end nearer. */
  lemma MoveMakesProgress(job: Job, s: State, w: nat)
    requires Sound(job, s) && CanMove(s, w)
    ensures Sound(job, Step(job, s, w)) && Remaining(job, Step(job, s, w)) < Remaining(job, s)
  {
    if s.workers[w].Ready? {
      ClaimKeepsSound(job, s, w);
      WorkUpdate(s.workers, w, Done);
      WorkUpdate(s.workers, w, Reading(s.nextIndex));
    } else {
      CompleteKeepsSound(job, s, w);
      WorkUpdate(s.workers, w, Ready);
    }
  }

  /** The moves of a schedule that a worker could make. */
  function Moves(job: Job, schedule: seq<nat>): nat {
    if schedule == [] then 0
    else
      var init := schedule[..|schedule| - 1];
      Moves(job, init) + if CanMove(Run(job, init), schedule[|schedule| - 1]) then 1 else 0
  }

  /** Whatever the schedule, the workers make at most three moves for each path and one each to stop. */
  lemma {:induction false} MovesBounded(job: Job, schedule: seq<nat>)
    ensures |Run(job, schedule).claims| <= |job.paths|
    ensures Moves(job, schedule) + Remaining(job, Run(job, schedule)) <= 3 * |job.paths| + FILE_READ_CONCURRENCY
  {
    EveryScheduleSound(job, schedule);
    if schedule == [] {
      WorkBounded(Start(job).workers);
    } else {
      var init, w := schedule[..|schedule| - 1], schedule[|schedule| - 1];
      MovesBounded(job, init);
      EveryScheduleSound(job, init);
      if CanMove(Run(job, init), w) {
        MoveMakesProgress(job, Run(job, init), w);
      }
    }
  }

  // ----- the pool -----

  class Pool {
    const job: Job
    const output: array<Option<SourceFile>>
    var nextIndex: nat
    var workers: seq<Worker>
    var claims: seq<Claim>

    ghost function Now(): State reads this, output {
      State(workers, nextIndex, claims, output[..])
    }

    constructor (job: Job)
      ensures this.job == job && fresh(output) && Now() == Start(job)
    {
      this.job := job;
      output := new Option<SourceFile>[|job.paths|](_ => None);
      nextIndex, claims := 0, [];
      workers := seq(Min(FILE_READ_CONCURRENCY, if |job.paths| > 1 then |job.paths| else 1), _ => Ready);
    }

    /** A worker takes the next index for itself, or stops if there is none left. */
    method ClaimNext(w: nat)
      requires w < |workers| && workers[w].Ready?
      modifies this`nextIndex, this`workers, this`claims
      ensures Now() == Step(job, old(Now()), w)
      ensures nextIndex == old(nextIndex) + 1
      ensures if old(nextIndex) < |job.paths| then claims == old(claims) + [Claim(old(nextIndex), w)]
              else claims == old(claims) && workers[w].Done?
    {
      var index := nextIndex;
      nextIndex := nextIndex + 1;
      if index >= |job.paths| {
        workers := workers[w := Done];
        return;
      }
      claims := claims + [Claim(index, w)];
      if job.paths[index] == "" {
        return;
      }
      workers := workers[w := Reading(index)];
    }

    /** A read completes: the worker's own slot holds what its path gives, and no other slot changes. */
    method CompleteRead(w: nat)
      requires Sound(job, Now()) && w < |workers| && workers[w].Reading?
      modifies this`workers, output
      ensures Now() == Step(job, old(Now()), w)
      ensures var i := old(workers)[w].index;
              i < |job.paths| && i < output.Length && output[..] == old(output[..])[i := Read(job, job.paths[i])]
    {
      CompleteKeepsSound(job, Now(), w);
      var index := workers[w].index;
      var path := job.paths[index];
      workers := workers[w := Ready];
      if path != "" && path in job.files {
        output[index] := Some(SourceFile(job.relative(path), job.files[path]));
      }
    }
  }

  /** Runs the pool under a scheduler that is free to choose. `schedule` is the order of moves it chose,
      and everything reported is what that schedule makes of the pool. */
  method ReadRuntimeSourceFiles(job: Job) returns (result: seq<SourceFile>, schedule: seq<nat>, peak: nat)
    ensures Quiet(Run(job, schedule)) && result == Present(Run(job, schedule).output)
    ensures result == SequentialRead(job)
    ensures peak == Peak(job, schedule) && peak <= FILE_READ_CONCURRENCY
  {
    var pool := new Pool(job);
    schedule := [];
    peak := InFlight(pool.workers);
    while exists w :: 0 <= w < |pool.workers| && !pool.workers[w].Done?
      invariant fresh(pool) && fresh(pool.output) && pool.job == job
      invariant pool.Now() == Run(job, schedule) && Sound(job, pool.Now())
      invariant peak == Peak(job, schedule)
      decreases Remaining(job, pool.Now())
    {
      var w :| 0 <= w < |pool.workers| && !pool.workers[w].Done?;
      MoveMakesProgress(job, pool.Now(), w);
      if pool.workers[w].Ready? {
        pool.ClaimNext(w);
      } else {
        pool.CompleteRead(w);
      }
      assert (schedule + [w])[..|schedule|] == schedule;
      schedule := schedule + [w];
      if InFlight(pool.workers) > peak {
        peak := InFlight(pool.workers);
      }
    }
    result := Compact(pool.output);
    QuietIsSequential(job, schedule);
    PeakBounded(job, schedule);
  }

  method Compact(output: array<Option<SourceFile>>) returns (result: seq<SourceFile>)
    ensures result == Present(output[..])
  {
    result := [];
    for i := 0 to output.Length
      invariant result == Present(output[..i])
    {
      assert output[..i + 1][..i] == output[..i];
      if output[i].Some? {
        result := result + [output[i].value];
      }
    }
    assert output[..output.Length] == output[..];
  }
}
