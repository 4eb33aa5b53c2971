/** The labeler's checkpoint file and the runs, crashes and restarts that read and write it. */
module LabelState {
  import opened LabelBatches

  const SKILL_LABEL := "r: skill"

  datatype Kind = Issue | PullRequest

  /** The numbers of the items done, as the two sets that the process keeps. */
  datatype Done = Done(issues: set<real>, pullRequests: set<real>) {
    function Of(kind: Kind): set<real> {
      if kind == Issue then issues else pullRequests
    }

    function Add(kind: Kind, number: real): Done {
      if kind == Issue then Done(issues + {number}, pullRequests) else Done(issues, pullRequests + {number})
    }
  }

  // ----- the state file -----

  datatype Entry = Number(n: real) | Other

  datatype Field = NotAnArray | Array(entries: seq<Entry>)

  /** What reading the file gives: no file, an object, or an error. */
  datatype File = Missing | Parsed(issues: Field, pullRequests: Field) | Unreadable

  function Numbers(field: Field): (numbers: set<real>)
    ensures forall n :: n in numbers <==> field.Array? && Number(n) in field.entries
  {
    match field
    case NotAnArray => {}
    case Array(entries) => set e | e in entries && e.Number? :: e.n
  }

  /** An unreadable file counts as an empty one. */
  function LoadState(file: File): Done {
    match file
    case Parsed(issues, pullRequests) => Done(Numbers(issues), Numbers(pullRequests))
    case _ => Done({}, {})
  }

  lemma HasLeast(s: set<real>)
    requires s != {}
    ensures exists x :: IsLeast(s, x)
    decreases |s|
  {
    assert (forall x :: x !in s) ==> s == {};
    var x :| x in s;
    var rest := s - {x};
    if rest == {} {
      assert forall y :: y in s ==> y == x || y in rest;
      assert IsLeast(s, x);
    } else {
      HasLeast(rest);
      var z :| IsLeast(rest, z);
      LeastOfTwo(s, x, z);
    }
  }

  predicate IsLeast(s: set<real>, x: real) {
    x in s && forall y | y in s :: x <= y
  }

  lemma LeastOfTwo(s: set<real>, x: real, z: real)
    requires x in s && IsLeast(s - {x}, z)
    ensures IsLeast(s, if x <= z then x else z)
  {
    var least := if x <= z then x else z;
    forall y | y in s ensures least <= y {
      assert y == x || y in s - {x};
    }
  }

  function Sorted(s: set<real>): (numbers: seq<real>)
    ensures forall x :: x in numbers <==> x in s
    ensures forall i, j | 0 <= i < j < |numbers| :: numbers[i] < numbers[j]
    decreases |s|
  {
    if s == {} then []
    else
      HasLeast(s);
      var x :| IsLeast(s, x);
      [x] + Sorted(s - {x})
  }

  function Entries(numbers: seq<real>): Field {
    Array(seq(|numbers|, i requires 0 <= i < |numbers| => Number(numbers[i])))
  }

  function BuildStateSnapshot(done: Done): File {
    Parsed(Entries(Sorted(done.issues)), Entries(Sorted(done.pullRequests)))
  }

  lemma EntriesNumbers(numbers: seq<real>)
    ensures forall n :: n in Numbers(Entries(numbers)) <==> n in numbers
  {
    var entries := Entries(numbers).entries;
    assert forall i | 0 <= i < |numbers| :: entries[i] == Number(numbers[i]);
    forall n | n in numbers ensures Number(n) in entries {
      var i :| 0 <= i < |numbers| && numbers[i] == n;
      assert entries[i] == Number(n);
    }
  }

  /** What a checkpoint stores is what the next start loads. */
  lemma SnapshotLoads(done: Done)
    ensures LoadState(BuildStateSnapshot(done)) == done
  {
    EntriesNumbers(Sorted(done.issues));
    EntriesNumbers(Sorted(done.pullRequests));
    assert Numbers(Entries(Sorted(done.issues))) == done.issues;
    assert Numbers(Entries(Sorted(done.pullRequests))) == done.pullRequests;
  }

  // ----- runs -----

  datatype Mark = Mark(kind: Kind, number: real)

  /** A process holds the numbers done, and within a batch the items still to work on, the first of
      which may have been classified already. `worked` says the batch had any. */
  datatype Process =
    | Down
    | Up(done: Done, dryRun: bool, kind: Kind, inBatch: bool, queue: seq<LabelItem>, worked: bool, asked: bool)

  datatype World = World(file: File, process: Process, classified: seq<Mark>)

  /** A crash may come anywhere; one that comes while the file is written leaves it unreadable. */
  datatype Event =
    | Start(dryRun: bool) | Begin(kind: Kind, items: seq<LabelItem>) | Classify | Finish | End | Crash | CrashWriting

  function Pending(items: seq<LabelItem>, done: set<real>): seq<LabelItem> {
    if items == [] then []
    else (if items[0].number in done then [] else [items[0]]) + Pending(items[1..], done)
  }

  predicate SkipsClassification(kind: Kind, item: LabelItem) {
    kind == PullRequest && SKILL_LABEL in item.labels
  }

  /** The batch is worked off, and its end writes a checkpoint. */
  predicate Saves(p: Process) {
    p.Up? && p.inBatch && p.queue == [] && !p.dryRun && p.worked
  }

  /** An event that cannot happen in a state leaves it as it is. */
  function Step(w: World, e: Event): World {
    var p := w.process;
    match e
    case Start(dryRun) =>
      if p.Down? then w.(process := Up(LoadState(w.file), dryRun, Issue, false, [], false, false)) else w
    case Begin(kind, items) =>
      if p.Up? && !p.inBatch && !(p.kind == PullRequest && kind == Issue) then
        var queue := Pending(items, p.done.Of(kind));
        w.(process := Up(p.done, p.dryRun, kind, true, queue, queue != [], false))
      else w
    case Classify =>
      if p.Up? && p.inBatch && p.queue != [] && !p.asked && !SkipsClassification(p.kind, p.queue[0]) then
        World(w.file, p.(asked := true), w.classified + [Mark(p.kind, p.queue[0].number)])
      else w
    case Finish =>
      if p.Up? && p.inBatch && p.queue != [] && (p.asked || SkipsClassification(p.kind, p.queue[0])) then
        w.(process := p.(done := p.done.Add(p.kind, p.queue[0].number), queue := p.queue[1..], asked := false))
      else w
    case End =>
      if p.Up? && p.inBatch && p.queue == [] then
        World(if Saves(p) then BuildStateSnapshot(p.done) else w.file, p.(inBatch := false), w.classified)
      else w
    case Crash => w.(process := Down)
    case CrashWriting => if Saves(p) then World(Unreadable, Down, w.classified) else w
  }

  function Run(w: World, events: seq<Event>): World
    decreases |events|
  {
    if events == [] then w else Run(Step(w, events[0]), events[1..])
  }

  predicate Saved(w: World, m: Mark) {
    m.number in LoadState(w.file).Of(m.kind)
  }

  ghost predicate Within(a: Done, b: Done) {
    a.issues <= b.issues && a.pullRequests <= b.pullRequests
  }

  /** A process knows all that the file holds and has none of it in its queue. Between batches, unless
      it is a dry run, the file holds all that it knows. */
  ghost predicate Sound(w: World) {
    var p := w.process;
    p.Up? ==>
      && Within(LoadState(w.file), p.done)
      && (p.inBatch ==> forall i | 0 <= i < |p.queue| :: p.queue[i].number !in LoadState(w.file).Of(p.kind))
      && (!p.dryRun && (!p.inBatch || !p.worked) ==> LoadState(w.file) == p.done)
      && (p.queue != [] ==> p.inBatch && p.worked)
  }

  lemma {:induction false} PendingNotDone(items: seq<LabelItem>, done: set<real>)
    ensures forall i | 0 <= i < |Pending(items, done)| :: Pending(items, done)[i].number !in done
    ensures forall i | 0 <= i < |items| :: items[i].number in done || items[i] in Pending(items, done)
  {
    if items == [] {
    } else {
      PendingNotDone(items[1..], done);
    }
  }

  /** The pending items are those not done, one by one and in order. */
  lemma {:induction false} PendingConcat(items: seq<LabelItem>, more: seq<LabelItem>, done: set<real>)
    ensures Pending(items + more, done) == Pending(items, done) + Pending(more, done)
  {
    if items == [] {
      assert items + more == more;
    } else {
      assert (items + more)[1..] == items[1..] + more;
      PendingConcat(items[1..], more, done);
    }
  }

  lemma OnePending(item: LabelItem, done: set<real>)
    ensures Pending([item], done) == if item.number in done then [] else [item]
  {
  }

  lemma StepKeepsSound(w: World, e: Event)
    requires Sound(w)
    ensures Sound(Step(w, e))
  {
    match e {
      case Begin(kind, items) => PendingNotDoneIn(w, kind, items);
      case End => if w.process.Up? {
        SnapshotLoads(w.process.done);
      }
      case _ =>
    }
  }

  lemma PendingNotDoneIn(w: World, kind: Kind, items: seq<LabelItem>)
    ensures w.process.Up? ==>
      var done := w.process.done.Of(kind);
      forall i | 0 <= i < |Pending(items, done)| :: Pending(items, done)[i].number !in done
  {
    if w.process.Up? {
      PendingNotDone(items, w.process.done.Of(kind));
    }
  }

  /** Whatever file the first start finds, every run keeps the process and the file in step. */
  lemma {:induction false} EveryRunSound(w: World, events: seq<Event>)
    requires Sound(w)
    ensures Sound(Run(w, events))
    decreases |events|
  {
    if events == [] {
    } else {
      StepKeepsSound(w, events[0]);
      EveryRunSound(Step(w, events[0]), events[1..]);
    }
  }

  /** The event cuts short a write of the file. */
  predicate CutsWrite(w: World, e: Event) {
    e == CrashWriting && Saves(w.process)
  }

  predicate WholeWrites(w: World, events: seq<Event>)
    decreases |events|
  {
    events == [] || (!CutsWrite(w, events[0]) && WholeWrites(Step(w, events[0]), events[1..]))
  }

  predicate ClassifiesAgain(w: World, events: seq<Event>, m: Mark) {
    var all := Run(w, events).classified;
    |w.classified| <= |all| && m in all[|w.classified|..]
  }

  lemma StepKeepsSaved(w: World, e: Event, m: Mark)
    requires Sound(w) && Saved(w, m) && !CutsWrite(w, e)
    ensures Saved(Step(w, e), m)
    ensures Step(w, e).classified == w.classified
         || (|Step(w, e).classified| == |w.classified| + 1 && Step(w, e).classified[..|w.classified|] == w.classified
             && Step(w, e).classified[|w.classified|] != m)
  {
    if e.End? && w.process.Up? {
      SnapshotLoads(w.process.done);
    }
  }

  /** An item that a checkpoint holds is never classified again, over any crashes and restarts in which
      no write of the file is cut short. */
  lemma {:induction false} NeverClassifiedAgain(w: World, events: seq<Event>, m: Mark)
    requires Sound(w) && Saved(w, m) && WholeWrites(w, events)
    ensures Saved(Run(w, events), m)
    ensures w.classified <= Run(w, events).classified
    ensures !ClassifiesAgain(w, events, m)
    decreases |events|
  {
    if events == [] {
    } else {
      var next := Step(w, events[0]);
      StepKeepsSaved(w, events[0], m);
      StepKeepsSound(w, events[0]);
      NeverClassifiedAgain(next, events[1..], m);
      var all := Run(next, events[1..]).classified;
      if next.classified != w.classified {
        assert all[|w.classified|..] == [next.classified[|w.classified|]] + all[|next.classified|..];
      }
    }
  }

  lemma {:induction false} NoneCut(w: World, events: seq<Event>)
    requires CrashWriting !in events
    ensures WholeWrites(w, events)
    decreases |events|
  {
    if events == [] {
    } else {
      NoneCut(Step(w, events[0]), events[1..]);
    }
  }

  lemma UnsavedAskedAgain(w: World, kind: Kind, item: LabelItem)
    requires !Saved(w, Mark(kind, item.number)) && !SkipsClassification(kind, item)
    ensures var events := [Crash, Start(false), Begin(kind, [item]), Classify];
            WholeWrites(w, events) && ClassifiesAgain(w, events, Mark(kind, item.number))
  {
    var events := [Crash, Start(false), Begin(kind, [item]), Classify];
    var w1 := Step(w, Crash);
    NoneCut(w, events);
    assert events[1..] == [Start(false), Begin(kind, [item]), Classify];
    Run3(w1, Start(false), Begin(kind, [item]), Classify);
    OnePending(item, LoadState(w.file).Of(kind));
    assert Run(w, events).classified == w.classified + [Mark(kind, item.number)];
  }

  /** An item that is classified at all is safe from being classified again exactly while the checkpoint holds it. */
  lemma SavedExactly(w: World, kind: Kind, item: LabelItem)
    requires Sound(w) && !SkipsClassification(kind, item)
    ensures Saved(w, Mark(kind, item.number))
            <==> forall events | WholeWrites(w, events) :: !ClassifiesAgain(w, events, Mark(kind, item.number))
  {
    var m := Mark(kind, item.number);
    if Saved(w, m) {
      forall events | WholeWrites(w, events) ensures !ClassifiesAgain(w, events, m) {
        NeverClassifiedAgain(w, events, m);
      }
    } else {
      UnsavedAskedAgain(w, kind, item);
    }
  }

  /** After a write that is cut short every item can be classified again, saved before or not. */
  lemma CutWriteLoses(w: World, e: Event, kind: Kind, item: LabelItem)
    requires Sound(w) && CutsWrite(w, e) && !SkipsClassification(kind, item)
    ensures exists events :: WholeWrites(Step(w, e), events) && ClassifiesAgain(Step(w, e), events, Mark(kind, item.number))
  {
    UnsavedAskedAgain(Step(w, e), kind, item);
  }

  /** A write cut short loses the checkpoint: an item saved before it can be classified a second time. */
  lemma CrashWritingForgets(item: LabelItem, other: LabelItem)
    requires item.number != other.number
    ensures var before := [Start(false), Begin(Issue, [item]), Classify, Finish, End];
            var after := [Begin(Issue, [other]), Classify, Finish, CrashWriting, Start(false), Begin(Issue, [item]), Classify];
            var first := Run(World(Missing, Down, []), before);
            && Saved(first, Mark(Issue, item.number))
            && Run(first, after).classified == [Mark(Issue, item.number), Mark(Issue, other.number), Mark(Issue, item.number)]
  {
    var w0 := World(Missing, Down, []);
    var w1 := FirstBatch(w0, item);
    var w2 := SecondBatch(w1, item, other);
    var w3 := Step(w2, CrashWriting);
    Run3(w3, Start(false), Begin(Issue, [item]), Classify);
    var before := [Start(false), Begin(Issue, [item]), Classify, Finish, End];
    var after := [Begin(Issue, [other]), Classify, Finish, CrashWriting, Start(false), Begin(Issue, [item]), Classify];
    assert after == [Begin(Issue, [other]), Classify, Finish] + ([CrashWriting] + [Start(false), Begin(Issue, [item]), Classify]);
    RunConcat(w1, [Begin(Issue, [other]), Classify, Finish], [CrashWriting] + [Start(false), Begin(Issue, [item]), Classify]);
    RunConcat(w2, [CrashWriting], [Start(false), Begin(Issue, [item]), Classify]);
    RunOne(w2, CrashWriting);
    OnePending(item, {});
  }

  lemma RunOne(w: World, e: Event)
    ensures Run(w, [e]) == Step(w, e)
  {
    assert [e][1..] == [];
  }

  lemma Run3(w: World, a: Event, b: Event, c: Event)
    ensures Run(w, [a, b, c]) == Step(Step(Step(w, a), b), c)
  {
    assert [a, b, c] == [a] + ([b] + [c]);
    RunConcat(w, [a], [b] + [c]);
    RunConcat(Step(w, a), [b], [c]);
    RunOne(w, a);
    RunOne(Step(w, a), b);
    RunOne(Step(Step(w, a), b), c);
  }

  lemma FirstBatch(w: World, item: LabelItem) returns (r: World)
    requires w == World(Missing, Down, [])
    ensures r == Run(w, [Start(false), Begin(Issue, [item]), Classify, Finish, End])
    ensures r == World(BuildStateSnapshot(Done({item.number}, {})), Up(Done({item.number}, {}), false, Issue, false, [], true, false), [Mark(Issue, item.number)])
    ensures Saved(r, Mark(Issue, item.number))
  {
    OnePending(item, {});
    Run3(w, Start(false), Begin(Issue, [item]), Classify);
    var w1 := Run(w, [Start(false), Begin(Issue, [item]), Classify]);
    r := Step(Step(w1, Finish), End);
    assert [Start(false), Begin(Issue, [item]), Classify, Finish, End] == [Start(false), Begin(Issue, [item]), Classify] + ([Finish] + [End]);
    RunConcat(w, [Start(false), Begin(Issue, [item]), Classify], [Finish] + [End]);
    RunConcat(w1, [Finish], [End]);
    RunOne(w1, Finish);
    RunOne(Step(w1, Finish), End);
    assert {} + {item.number} == {item.number};
    SnapshotLoads(Done({item.number}, {}));
  }

  lemma SecondBatch(w: World, item: LabelItem, other: LabelItem) returns (r: World)
    requires item.number != other.number
    requires w == World(BuildStateSnapshot(Done({item.number}, {})), Up(Done({item.number}, {}), false, Issue, false, [], true, false), [Mark(Issue, item.number)])
    ensures r == Run(w, [Begin(Issue, [other]), Classify, Finish])
    ensures Saves(r.process) && r.classified == [Mark(Issue, item.number), Mark(Issue, other.number)]
  {
    OnePending(other, {item.number});
    Run3(w, Begin(Issue, [other]), Classify, Finish);
    r := Run(w, [Begin(Issue, [other]), Classify, Finish]);
  }

  lemma {:induction false} RunConcat(w: World, a: seq<Event>, b: seq<Event>)
    ensures Run(w, a + b) == Run(Run(w, a), b)
    decreases |a|
  {
    if a == [] {
      assert a + b == b;
    } else {
      assert (a + b)[1..] == a[1..] + b;
      RunConcat(Step(w, a[0]), a[1..], b);
    }
  }

  // ----- the batch loops -----

  function ItemEvents(kind: Kind, queue: seq<LabelItem>): seq<Event> {
    if queue == [] then []
    else (if SkipsClassification(kind, queue[0]) then [Finish] else [Classify, Finish]) + ItemEvents(kind, queue[1..])
  }

  function NumbersOf(items: seq<LabelItem>): (numbers: set<real>)
    ensures forall i | 0 <= i < |items| :: items[i].number in numbers
  {
    set i | 0 <= i < |items| :: items[i].number
  }

  function BatchEvents(kind: Kind, done: set<real>, items: seq<LabelItem>): seq<Event> {
    [Begin(kind, items)] + (ItemEvents(kind, Pending(items, done)) + [End])
  }

  /** What a process does, without a crash, with the batches of a kind. */
  function LoopEvents(kind: Kind, done: set<real>, batches: seq<seq<LabelItem>>): seq<Event>
    decreases |batches|
  {
    if batches == [] then []
    else BatchEvents(kind, done, batches[0]) + LoopEvents(kind, done + NumbersOf(batches[0]), batches[1..])
  }

  predicate Ready(w: World, kind: Kind) {
    w.process.Up? && !w.process.inBatch && !(w.process.kind == PullRequest && kind == Issue)
  }

  function AddAll(done: Done, kind: Kind, numbers: set<real>): Done {
    if kind == Issue then Done(done.issues + numbers, done.pullRequests) else Done(done.issues, done.pullRequests + numbers)
  }

  /** The items of a batch, worked off one by one: those asked about, in order. */
  function Marks(kind: Kind, queue: seq<LabelItem>): seq<Mark> {
    if queue == [] then []
    else (if SkipsClassification(kind, queue[0]) then [] else [Mark(kind, queue[0].number)]) + Marks(kind, queue[1..])
  }

  /** Each item is asked about in turn, but for pull requests with the skill label. */
  lemma {:induction false} MarksConcat(kind: Kind, queue: seq<LabelItem>, more: seq<LabelItem>)
    ensures Marks(kind, queue + more) == Marks(kind, queue) + Marks(kind, more)
  {
    if queue == [] {
      assert queue + more == more;
    } else {
      assert (queue + more)[1..] == queue[1..] + more;
      MarksConcat(kind, queue[1..], more);
    }
  }

  lemma OneMark(kind: Kind, item: LabelItem)
    ensures Marks(kind, [item]) == if kind == PullRequest && "r: skill" in item.labels then [] else [Mark(kind, item.number)]
  {
  }

  /** The state after the first item of the queue. */
  function NextItem(w: World): World
    requires w.process.Up? && w.process.queue != []
  {
    var p := w.process;
    var asked := if SkipsClassification(p.kind, p.queue[0]) then [] else [Mark(p.kind, p.queue[0].number)];
    World(w.file, p.(done := p.done.Add(p.kind, p.queue[0].number), queue := p.queue[1..]), w.classified + asked)
  }

  /** The state after the whole queue. */
  function QueueDone(w: World): World
    requires w.process.Up?
  {
    var p := w.process;
    World(w.file, p.(done := AddAll(p.done, p.kind, NumbersOf(p.queue)), queue := []), w.classified + Marks(p.kind, p.queue))
  }

  lemma {:induction false} RunItems(w: World)
    requires w.process.Up? && w.process.inBatch && !w.process.asked
    ensures Run(w, ItemEvents(w.process.kind, w.process.queue)) == QueueDone(w)
    decreases |w.process.queue|
  {
    if w.process.queue == [] {
      assert AddAll(w.process.done, w.process.kind, {}) == w.process.done;
    } else {
      RunItem(w);
      RunItems(NextItem(w));
      QueueDoneNext(w);
    }
  }

  lemma QueueDoneNext(w: World)
    requires w.process.Up? && w.process.queue != []
    ensures QueueDone(NextItem(w)) == QueueDone(w)
  {
    AddFirst(w.process.done, w.process.kind, w.process.queue);
    MarksFirst(w.classified, w.process.kind, w.process.queue);
  }

  lemma AddFirst(done: Done, kind: Kind, queue: seq<LabelItem>)
    requires queue != []
    ensures AddAll(done.Add(kind, queue[0].number), kind, NumbersOf(queue[1..])) == AddAll(done, kind, NumbersOf(queue))
  {
    SplitNumbers(queue);
    var head, tail := {queue[0].number}, NumbersOf(queue[1..]);
    assert done.issues + head + tail == done.issues + (head + tail);
    assert done.pullRequests + head + tail == done.pullRequests + (head + tail);
  }

  lemma SplitNumbers(items: seq<LabelItem>)
    requires items != []
    ensures NumbersOf(items) == {items[0].number} + NumbersOf(items[1..])
  {
    forall n | n in NumbersOf(items) ensures n in {items[0].number} + NumbersOf(items[1..]) {
      var i :| 0 <= i < |items| && items[i].number == n;
      assert i > 0 ==> items[1..][i - 1].number == n;
    }
  }

  lemma RunItem(w: World)
    requires w.process.Up? && w.process.inBatch && !w.process.asked && w.process.queue != []
    ensures Run(w, ItemEvents(w.process.kind, w.process.queue)) == Run(NextItem(w), ItemEvents(w.process.kind, w.process.queue[1..]))
  {
    var p := w.process;
    var rest := ItemEvents(p.kind, p.queue[1..]);
    if SkipsClassification(p.kind, p.queue[0]) {
      RunConcat(w, [Finish], rest);
      RunOne(w, Finish);
      assert w.classified + [] == w.classified;
    } else {
      RunConcat(w, [Classify] + [Finish], rest);
      RunConcat(w, [Classify], [Finish]);
      RunOne(w, Classify);
      RunOne(Step(w, Classify), Finish);
      assert [Classify] + [Finish] == [Classify, Finish];
    }
  }

  lemma {:induction false} PendingNumbers(items: seq<LabelItem>, done: set<real>)
    ensures done + NumbersOf(Pending(items, done)) == done + NumbersOf(items)
  {
    if items == [] {
    } else {
      var rest := Pending(items[1..], done);
      PendingNumbers(items[1..], done);
      SplitNumbers(items);
      SplitNumbers([items[0]] + rest);
      assert ([items[0]] + rest)[1..] == rest;
      var head := {items[0].number};
      assert done + (head + NumbersOf(items[1..])) == done + NumbersOf(items[1..]) + head;
      if items[0].number in done {
        assert Pending(items, done) == rest;
        assert done + head == done;
      } else {
        assert done + NumbersOf(Pending(items, done)) == done + NumbersOf(rest) + head;
      }
    }
  }

  /** The state between this batch and the next: every item done, those pending asked about, and saved if there were any. */
  function AfterBatch(w: World, kind: Kind, items: seq<LabelItem>): World
    requires w.process.Up?
  {
    var p := w.process;
    var pending, done := Pending(items, p.done.Of(kind)), AddAll(p.done, kind, NumbersOf(items));
    World(if !p.dryRun && pending != [] then BuildStateSnapshot(done) else w.file,
          Up(done, p.dryRun, kind, false, [], pending != [], false), w.classified + Marks(kind, pending))
  }

  /** One batch of the loop: the pending items are asked about, and every item is done afterwards. */
  lemma RunBatch(w: World, kind: Kind, items: seq<LabelItem>) returns (next: World)
    requires Ready(w, kind)
    ensures next == Run(w, BatchEvents(kind, w.process.done.Of(kind), items))
    ensures next == AfterBatch(w, kind, items)
  {
    var p := w.process;
    var w1 := Step(w, Begin(kind, items));
    var events := ItemEvents(kind, Pending(items, p.done.Of(kind)));
    RunConcat(w, [Begin(kind, items)], events + [End]);
    RunOne(w, Begin(kind, items));
    RunConcat(w1, events, [End]);
    RunItems(w1);
    RunOne(Run(w1, events), End);
    next := Step(Run(w1, events), End);
    AllItemsDone(p.done, kind, items);
  }

  lemma AllItemsDone(done: Done, kind: Kind, items: seq<LabelItem>)
    ensures AddAll(done, kind, NumbersOf(Pending(items, done.Of(kind)))) == AddAll(done, kind, NumbersOf(items))
  {
    PendingNumbers(items, done.Of(kind));
  }

  /** Works through the batches of a kind: asks about the items not done, and saves after every batch that had any. */
  method WorkThrough(w: World, kind: Kind, batches: seq<seq<LabelItem>>) returns (r: World)
    requires Ready(w, kind)
    ensures r == Run(w, LoopEvents(kind, w.process.done.Of(kind), batches))
  {
    var done, file, classified, dryRun := w.process.done, w.file, w.classified, w.process.dryRun;
    r := w;
    ghost var all := LoopEvents(kind, done.Of(kind), batches);
    var i := 0;
    while i < |batches|
      invariant 0 <= i <= |batches|
      invariant Ready(r, kind) && r.process.done == done && r.process.dryRun == dryRun && r.file == file && r.classified == classified
      invariant Run(r, LoopEvents(kind, done.Of(kind), batches[i..])) == Run(w, all)
    {
      var pending := Pending(batches[i], done.Of(kind));
      NextBatch(r, kind, batches[i..]);
      done, classified := WorkOff(kind, pending, done, classified);
      AllItemsDone(r.process.done, kind, batches[i]);
      if !dryRun && pending != [] {
        file := BuildStateSnapshot(done);
      }
      r := World(file, Up(done, dryRun, kind, false, [], pending != [], false), classified);
      assert batches[i..][1..] == batches[i + 1..];
      i := i + 1;
    }
    assert batches[i..] == [];
  }

  lemma NextBatch(w: World, kind: Kind, batches: seq<seq<LabelItem>>)
    requires Ready(w, kind) && batches != []
    ensures var next := AfterBatch(w, kind, batches[0]);
            Run(w, LoopEvents(kind, w.process.done.Of(kind), batches)) == Run(next, LoopEvents(kind, next.process.done.Of(kind), batches[1..]))
  {
    var next := RunBatch(w, kind, batches[0]);
    var before := w.process.done.Of(kind);
    RunConcat(w, BatchEvents(kind, before, batches[0]), LoopEvents(kind, before + NumbersOf(batches[0]), batches[1..]));
  }

  lemma MarksFirst(asked: seq<Mark>, kind: Kind, queue: seq<LabelItem>)
    requires queue != []
    ensures asked + Marks(kind, queue)
         == (if SkipsClassification(kind, queue[0]) then asked else asked + [Mark(kind, queue[0].number)]) + Marks(kind, queue[1..])
  {
  }

  /** Asks about the pending items of a batch, one by one, but for pull requests that carry the skill label. */
  method WorkOff(kind: Kind, pending: seq<LabelItem>, before: Done, asked: seq<Mark>) returns (done: Done, classified: seq<Mark>)
    ensures done == AddAll(before, kind, NumbersOf(pending))
    ensures classified == asked + Marks(kind, pending)
  {
    done, classified := before, asked;
    assert pending[0..] == pending;
    var i := 0;
    while i < |pending|
      invariant 0 <= i <= |pending|
      invariant AddAll(done, kind, NumbersOf(pending[i..])) == AddAll(before, kind, NumbersOf(pending))
      invariant classified + Marks(kind, pending[i..]) == asked + Marks(kind, pending)
    {
      AddFirst(done, kind, pending[i..]);
      MarksFirst(classified, kind, pending[i..]);
      assert pending[i..][1..] == pending[i + 1..];
      if !SkipsClassification(kind, pending[i]) {
        classified := classified + [Mark(kind, pending[i].number)];
      }
      done := done.Add(kind, pending[i].number);
      i := i + 1;
    }
    assert pending[i..] == [];
    assert AddAll(done, kind, {}) == done;
  }

  /** After a run of the loop that is not a dry run, the file holds every item of every batch. */
  lemma {:induction false} LoopSavesAll(w: World, kind: Kind, batches: seq<seq<LabelItem>>)
    requires Sound(w) && Ready(w, kind) && !w.process.dryRun
    ensures var r := Run(w, LoopEvents(kind, w.process.done.Of(kind), batches));
            && Sound(r) && Ready(r, kind) && !r.process.dryRun
            && Within(LoadState(w.file), LoadState(r.file))
            && forall b, i | 0 <= b < |batches| && 0 <= i < |batches[b]| :: Saved(r, Mark(kind, batches[b][i].number))
    decreases |batches|
  {
    if batches == [] {
    } else {
      var before := w.process.done.Of(kind);
      var next := RunBatch(w, kind, batches[0]);
      EveryRunSound(w, BatchEvents(kind, before, batches[0]));
      NextBatch(w, kind, batches);
      LoopSavesAll(next, kind, batches[1..]);
      var r := Run(next, LoopEvents(kind, next.process.done.Of(kind), batches[1..]));
      forall b, i | 0 <= b < |batches| && 0 <= i < |batches[b]| ensures Saved(r, Mark(kind, batches[b][i].number)) {
        assert b > 0 ==> batches[b] == batches[1..][b - 1];
        assert batches[0] != [] && b == 0 ==> batches[b][i].number in NumbersOf(batches[0]);
      }
    }
  }
}
