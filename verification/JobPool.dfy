/** The worker pool (`network/nw_job.c`) as a system of steps, up to shutdown. A stretch of code under the lock is
  one step, except that the pipe is written under the lock while the main thread may read it without. */
module JobPool {

  /** Jobs are numbered in the order in which they are added. */
  type Job = nat

  /** Where a worker is: about to look for work, blocked in the wait, at a job, or holding the lock to write to the
    pipe. */
  datatype Worker = Ready | Waiting | Running(job: Job) | Writing

  /** Where the main thread is: outside, emptying the pipe, emptying the reply list, or at the callbacks of a reply. */
  datatype Main = Idle | Reading | Draining | Finishing(job: Job)

  datatype Pool = Pool(
    request: seq<Job>, requestCount: int, reply: seq<Job>, replyCount: int,
    workers: seq<Worker>, main: Main, pipe: nat,
    added: nat, started: seq<Job>, replied: seq<Job>, finished: seq<Job>)

  datatype Step =
    | Add(woken: set<nat>)
    | Spurious(w: nat)
    | Look(w: nat)
    | Done(w: nat)
    | Write(w: nat)
    | Poll
    | Read(fails: bool)
    | Pop
    | Finish

  function Start(threads: nat): Pool {
    Pool([], 0, [], 0, seq(threads, _ => Ready), Idle, 0, 0, [], [], [])
  }

  predicate Is(s: Pool, w: nat, at: Worker) {
    w < |s.workers| && s.workers[w] == at
  }

  predicate LockFree(s: Pool) {
    forall w :: 0 <= w < |s.workers| ==> s.workers[w] != Writing
  }

  predicate SomeWait(s: Pool) {
    exists w :: 0 <= w < |s.workers| && s.workers[w] == Waiting
  }

  /** A signal wakes at least one of the waiting threads; a wait may also return unsignalled, and a read may fail at
    any time. */
  predicate Enabled(s: Pool, step: Step) {
    match step
    case Add(woken) => LockFree(s) && (forall w :: w in woken ==> Is(s, w, Waiting)) && (SomeWait(s) ==> woken != {})
    case Spurious(w) => Is(s, w, Waiting)
    case Look(w) => Is(s, w, Ready) && LockFree(s) && (s.requestCount != 0 ==> s.request != [])
    case Done(w) => w < |s.workers| && s.workers[w].Running? && LockFree(s)
    case Write(w) => Is(s, w, Writing)
    case Poll => s.main == Idle
    case Read(_) => s.main == Reading
    case Pop => s.main == Draining && LockFree(s) && (s.replyCount != 0 ==> s.reply != [])
    case Finish => s.main.Finishing?
  }

  function Wake(ws: seq<Worker>, woken: set<nat>): (r: seq<Worker>)
    ensures |r| == |ws|
  {
    seq(|ws|, i requires 0 <= i < |ws| => if i in woken then Ready else ws[i])
  }

  /** `capacity` is what the pipe holds; a write to a full pipe fails and is ignored. */
  function Next(s: Pool, step: Step, capacity: nat): Pool
    requires Enabled(s, step)
  {
    match step
    case Add(woken) =>
      s.(request := s.request + [s.added], requestCount := s.requestCount + 1, added := s.added + 1,
        workers := Wake(s.workers, woken))
    case Spurious(w) => s.(workers := s.workers[w := Ready])
    case Look(w) =>
      if s.requestCount == 0 then s.(workers := s.workers[w := Waiting])
      else s.(request := s.request[1..], requestCount := s.requestCount - 1, started := s.started + [s.request[0]],
              workers := s.workers[w := Running(s.request[0])])
    case Done(w) =>
      var job := s.workers[w].job;
      s.(reply := s.reply + [job], replyCount := s.replyCount + 1, replied := s.replied + [job],
        workers := s.workers[w := Writing])
    case Write(w) => s.(pipe := if s.pipe < capacity then s.pipe + 1 else s.pipe, workers := s.workers[w := Ready])
    case Poll => s.(main := Reading)
    case Read(fails) => if s.pipe == 0 || fails then s.(main := Draining) else s.(pipe := s.pipe - 1)
    case Pop =>
      if s.replyCount == 0 then s.(main := Idle)
      else s.(reply := s.reply[1..], replyCount := s.replyCount - 1, main := Finishing(s.reply[0]))
    case Finish => s.(main := Draining, finished := s.finished + [s.main.job])
  }

  // ----- Sums over the workers

  function Value(w: Worker, ready: int, running: int, writing: int): int {
    match w
    case Ready => ready
    case Waiting => 0
    case Running(_) => running
    case Writing => writing
  }

  function Sum(ws: seq<Worker>, ready: int, running: int, writing: int): int {
    if ws == [] then 0 else Value(ws[0], ready, running, writing) + Sum(ws[1..], ready, running, writing)
  }

  function InHand(w: Worker): multiset<Job> {
    if w.Running? then multiset{w.job} else multiset{}
  }

  function Held(ws: seq<Worker>): multiset<Job> {
    if ws == [] then multiset{} else InHand(ws[0]) + Held(ws[1..])
  }

  lemma {:induction false} SumUpdate(ws: seq<Worker>, w: nat, to: Worker, a: int, b: int, c: int)
    requires w < |ws|
    ensures Sum(ws[w := to], a, b, c) == Sum(ws, a, b, c) - Value(ws[w], a, b, c) + Value(to, a, b, c)
  {
    if w == 0 {
      assert ws[w := to][1..] == ws[1..];
    } else {
      assert ws[w := to][1..] == ws[1..][w - 1 := to];
      SumUpdate(ws[1..], w - 1, to, a, b, c);
    }
  }

  lemma {:induction false} HeldUpdate(ws: seq<Worker>, w: nat, to: Worker)
    requires w < |ws|
    ensures Held(ws[w := to]) + InHand(ws[w]) == Held(ws) + InHand(to)
  {
    if w == 0 {
      assert ws[w := to][1..] == ws[1..];
    } else {
      assert ws[w := to][1..] == ws[1..][w - 1 := to];
      HeldUpdate(ws[1..], w - 1, to);
      AddSame(InHand(ws[0]), Held(ws[1..][w - 1 := to]), Held(ws[1..]), InHand(ws[w]), InHand(to));
    }
  }

  /** Only what a worker has in hand counts. */
  lemma HeldKept(ws: seq<Worker>, w: nat, to: Worker)
    requires w < |ws| && !ws[w].Running? && !to.Running?
    ensures Held(ws[w := to]) == Held(ws)
  {
    HeldUpdate(ws, w, to);
    assert Held(ws[w := to]) + multiset{} == Held(ws[w := to]) && Held(ws) + multiset{} == Held(ws);
  }

  lemma AddSame(h: multiset<Job>, a: multiset<Job>, b: multiset<Job>, x: multiset<Job>, y: multiset<Job>)
    requires a + x == b + y
    ensures (h + a) + x == (h + b) + y
  {
    assert (h + a) + x == h + (a + x);
    assert (h + b) + y == h + (b + y);
  }

  lemma {:induction false} HeldEqual(ws: seq<Worker>, vs: seq<Worker>)
    requires |ws| == |vs| && forall i :: 0 <= i < |ws| ==> InHand(ws[i]) == InHand(vs[i])
    ensures Held(ws) == Held(vs)
  {
    if ws != [] {
      HeldEqual(ws[1..], vs[1..]);
    }
  }

  lemma {:induction false} SumAtMost(ws: seq<Worker>, vs: seq<Worker>, a: int, b: int, c: int)
    requires |ws| == |vs| && forall i :: 0 <= i < |ws| ==> Value(ws[i], a, b, c) <= Value(vs[i], a, b, c)
    ensures Sum(ws, a, b, c) <= Sum(vs, a, b, c)
  {
    if ws != [] {
      SumAtMost(ws[1..], vs[1..], a, b, c);
    }
  }

  function Readies(ws: seq<Worker>): int { Sum(ws, 1, 0, 0) }

  /** Waking some of the waiting threads adds to those that look for work. */
  lemma Woken(s: Pool, woken: set<nat>)
    requires forall w :: w in woken ==> Is(s, w, Waiting)
    ensures Held(Wake(s.workers, woken)) == Held(s.workers)
    ensures Readies(Wake(s.workers, woken)) >= Readies(s.workers) + (if woken == {} then 0 else 1)
  {
    var vs := Wake(s.workers, woken);
    HeldEqual(vs, s.workers);
    if woken == {} {
      assert vs == s.workers;
    } else {
      var w :| w in woken;
      assert Is(s, w, Waiting);
      SumUpdate(s.workers, w, Ready, 1, 0, 0);
      SumAtMost(s.workers[w := Ready], vs, 1, 0, 0);
    }
  }

  // ----- The invariant

  function UpTo(n: nat): (r: seq<Job>) { seq(n, i => i) }

  function AtMain(m: Main): seq<Job> {
    if m.Finishing? then [m.job] else []
  }

  /** The counters are the lengths of the lists. */
  predicate Counted(s: Pool) {
    s.requestCount == |s.request| && s.replyCount == |s.reply|
  }

  /** Jobs start in the order in which they were added and are finished in the order of their replies; a started job
    is with one worker or has been replied. */
  predicate Ordered(s: Pool) {
    && s.started + s.request == UpTo(s.added)
    && s.finished + AtMain(s.main) + s.reply == s.replied
    && multiset(s.started) == Held(s.workers) + multiset(s.replied)
  }

  predicate OneWriter(s: Pool) {
    forall v, w :: 0 <= v < w < |s.workers| ==> s.workers[v] != Writing || s.workers[w] != Writing
  }

  /** While any thread is blocked, at least as many are about to look for work as there are requests. */
  predicate NoLostWakeup(s: Pool) {
    SomeWait(s) ==> |s.request| <= Readies(s.workers)
  }

  /** A reply waits only while the main thread is at it, the pipe is readable, or a worker is about to write to it. */
  predicate NoLostReply(s: Pool) {
    s.reply != [] ==> s.pipe > 0 || s.main != Idle || !LockFree(s)
  }

  predicate Inv(s: Pool) {
    Counted(s) && Ordered(s) && OneWriter(s) && NoLostWakeup(s) && NoLostReply(s)
  }

  lemma {:induction false} StartHeld(n: nat)
    ensures Held(seq(n, _ => Ready)) == multiset{}
  {
    if n > 0 {
      assert seq(n, _ => Ready)[1..] == seq(n - 1, _ => Ready);
      StartHeld(n - 1);
    }
  }

  lemma StartInv(threads: nat)
    ensures Inv(Start(threads))
  {
    StartHeld(threads);
    var none: seq<Job> := [];
    assert multiset(none) == multiset{};
  }

  lemma UpToMore(started: seq<Job>, request: seq<Job>, n: nat)
    requires started + request == UpTo(n)
    ensures started + (request + [n]) == UpTo(n + 1)
  {
    assert started + (request + [n]) == UpTo(n) + [n];
  }

  lemma AddOrdered(s: Pool, woken: set<nat>, capacity: nat)
    requires Ordered(s) && Enabled(s, Add(woken))
    ensures Ordered(Next(s, Add(woken), capacity))
  {
    hide Readies, LockFree, SomeWait, Held, UpTo, Wake;
    Woken(s, woken);
    UpToMore(s.started, s.request, s.added);
  }

  lemma LookOrdered(s: Pool, w: nat, capacity: nat)
    requires Counted(s) && Ordered(s) && Enabled(s, Look(w))
    ensures Ordered(Next(s, Look(w), capacity))
  {
    hide Held, LockFree;
    var t := Next(s, Look(w), capacity);
    if s.requestCount != 0 {
      HeldUpdate(s.workers, w, t.workers[w]);
      var job := s.request[0];
      assert s.started + s.request == t.started + t.request;
      assert multiset(t.started) == multiset(s.started) + multiset{job};
      assert Held(t.workers) == Held(s.workers) + multiset{job};
    } else {
      HeldKept(s.workers, w, Waiting);
    }
  }

  lemma DoneOrdered(s: Pool, w: nat, capacity: nat)
    requires Counted(s) && Ordered(s) && Enabled(s, Done(w))
    ensures Ordered(Next(s, Done(w), capacity))
  {
    hide Held, LockFree;
    var t, job := Next(s, Done(w), capacity), s.workers[w].job;
    HeldUpdate(s.workers, w, Writing);
    assert Held(t.workers) + multiset{job} == Held(s.workers);
    assert multiset(t.replied) == multiset(s.replied) + multiset{job};
    assert s.finished + AtMain(s.main) + t.reply == t.replied;
  }

  lemma PopOrdered(s: Pool, capacity: nat)
    requires Counted(s) && Ordered(s) && Enabled(s, Pop)
    ensures Ordered(Next(s, Pop, capacity))
  {
    hide Held, LockFree, UpTo;
    if s.replyCount != 0 {
      assert s.reply == [s.reply[0]] + s.reply[1..];
    }
  }

  /** A worker that is not at a job moves to somewhere that is not a job. */
  lemma RestOrdered(s: Pool, w: nat, step: Step, capacity: nat)
    requires Ordered(s) && Enabled(s, step) && (step == Write(w) || step == Spurious(w))
    ensures Ordered(Next(s, step, capacity))
  {
    hide LockFree, Held, UpTo;
    HeldKept(s.workers, w, Ready);
  }

  lemma MainOrdered(s: Pool, step: Step, capacity: nat)
    requires Ordered(s) && Enabled(s, step) && (step.Poll? || step.Read? || step.Finish?)
    ensures Ordered(Next(s, step, capacity))
  {
    hide LockFree, Held, UpTo;
    if step.Finish? {
      assert s.finished + AtMain(s.main) == Next(s, step, capacity).finished + [];
    }
  }

  lemma StepOrdered(s: Pool, step: Step, capacity: nat)
    requires Counted(s) && Ordered(s) && Enabled(s, step)
    ensures Ordered(Next(s, step, capacity))
  {
    hide Ordered, Next, Enabled;
    match step {
      case Add(woken) => AddOrdered(s, woken, capacity);
      case Look(w) => LookOrdered(s, w, capacity);
      case Done(w) => DoneOrdered(s, w, capacity);
      case Write(w) => RestOrdered(s, w, step, capacity);
      case Spurious(w) => RestOrdered(s, w, step, capacity);
      case Pop => PopOrdered(s, capacity);
      case Poll => MainOrdered(s, step, capacity);
      case Read(_) => MainOrdered(s, step, capacity);
      case Finish => MainOrdered(s, step, capacity);
    }
  }

  lemma StepCounted(s: Pool, step: Step, capacity: nat)
    requires Counted(s) && Enabled(s, step)
    ensures Counted(Next(s, step, capacity))
  {
    hide LockFree, SomeWait, Wake;
  }

  lemma StepAwake(s: Pool, step: Step, capacity: nat)
    requires Inv(s) && Enabled(s, step)
    ensures NoLostWakeup(Next(s, step, capacity)) && OneWriter(Next(s, step, capacity))
  {
    hide Ordered, NoLostReply, Held;
    var t := Next(s, step, capacity);
    match step {
      case Add(woken) => Woken(s, woken);
      case Look(w) =>
        SumUpdate(s.workers, w, t.workers[w], 1, 0, 0);
        SumNonNegative(t.workers);
      case Done(w) => SumUpdate(s.workers, w, Writing, 1, 0, 0);
      case Write(w) => SumUpdate(s.workers, w, Ready, 1, 0, 0);
      case Spurious(w) => SumUpdate(s.workers, w, Ready, 1, 0, 0);
      case Pop =>
      case Poll =>
      case Read(_) =>
      case Finish =>
    }
  }

  lemma {:induction false} SumNonNegative(ws: seq<Worker>)
    ensures Readies(ws) >= 0
  {
    if ws != [] { SumNonNegative(ws[1..]); }
  }

  lemma StepReplies(s: Pool, step: Step, capacity: nat)
    requires Inv(s) && Enabled(s, step) && capacity > 0
    ensures NoLostReply(Next(s, step, capacity))
  {
    hide Ordered, NoLostWakeup, Held, Sum;
    var t := Next(s, step, capacity);
    match step {
      case Add(woken) =>
        assert LockFree(t);
      case Done(w) => assert t.workers[w] == Writing;
      case Look(w) =>
      case Write(w) =>
      case Spurious(w) =>
        if !LockFree(s) {
          var v :| 0 <= v < |s.workers| && s.workers[v] == Writing;
          assert t.workers[v] == Writing;
        }
      case Pop =>
      case Poll =>
      case Read(_) =>
      case Finish =>
    }
  }

  // ----- Whole runs

  ghost predicate Legal(s: Pool, steps: seq<Step>, capacity: nat)
    decreases |steps|
  {
    steps == [] || (Enabled(s, steps[0]) && Legal(Next(s, steps[0], capacity), steps[1..], capacity))
  }

  ghost function After(s: Pool, steps: seq<Step>, capacity: nat): Pool
    requires Legal(s, steps, capacity)
    decreases |steps|
  {
    if steps == [] then s else After(Next(s, steps[0], capacity), steps[1..], capacity)
  }

  lemma StepKeeps(s: Pool, step: Step, capacity: nat)
    requires Inv(s) && Enabled(s, step) && capacity > 0
    ensures Inv(Next(s, step, capacity))
  {
    hide Ordered, Counted, NoLostWakeup, NoLostReply, OneWriter, Enabled, Next;
    StepOrdered(s, step, capacity);
    StepCounted(s, step, capacity);
    StepAwake(s, step, capacity);
    StepReplies(s, step, capacity);
  }

  /** In every interleaving the invariant holds at every point. */
  lemma {:induction false} RunKeeps(s: Pool, steps: seq<Step>, capacity: nat)
    requires Inv(s) && Legal(s, steps, capacity) && capacity > 0
    ensures Inv(After(s, steps, capacity))
    decreases |steps|
  {
    hide Inv, Enabled, Next;
    if steps != [] {
      StepKeeps(s, steps[0], capacity);
      RunKeeps(Next(s, steps[0], capacity), steps[1..], capacity);
    }
  }

  /** Everywhere a job can be. */
  function Places(s: Pool): multiset<Job> {
    multiset(s.request) + Held(s.workers) + multiset(s.reply) + multiset(AtMain(s.main)) + multiset(s.finished)
  }

  lemma {:induction false} UpToOnce(n: nat, job: Job)
    ensures multiset(UpTo(n))[job] == if job < n then 1 else 0
  {
    if n > 0 {
      UpToOnce(n - 1, job);
      assert UpTo(n) == UpTo(n - 1) + [n - 1];
    }
  }

  /** Each job that was added is in exactly one place, and nothing else is in any. */
  lemma OnePlace(s: Pool, job: Job)
    requires Inv(s)
    ensures Places(s)[job] == if job < s.added then 1 else 0
  {
    hide Held;
    UpToOnce(s.added, job);
    assert multiset(UpTo(s.added)) == multiset(s.started) + multiset(s.request);
    assert multiset(s.replied) == multiset(s.finished) + multiset(AtMain(s.main)) + multiset(s.reply);
  }

  /** What holds at every point of every interleaving of any number of threads. */
  lemma Reached(threads: nat, steps: seq<Step>, capacity: nat)
    requires Legal(Start(threads), steps, capacity) && capacity > 0
    ensures var s := After(Start(threads), steps, capacity);
      && s.requestCount == |s.request| && s.replyCount == |s.reply|
      && s.started == UpTo(|s.started|) && |s.started| <= s.added
      && (forall job: Job :: Places(s)[job] == if job < s.added then 1 else 0)
      && (s.request != [] && threads > 0 ==> exists w :: 0 <= w < |s.workers| && s.workers[w] != Waiting)
      && (s.reply != [] ==> s.pipe > 0 || s.main != Idle || !LockFree(s))
  {
    hide Held, Sum, Enabled, Next;
    StartInv(threads);
    RunKeeps(Start(threads), steps, capacity);
    var s := After(Start(threads), steps, capacity);
    SameThreads(Start(threads), steps, capacity);
    forall job: Job ensures Places(s)[job] == if job < s.added then 1 else 0 {
      OnePlace(s, job);
    }
    assert s.started == (s.started + s.request)[..|s.started|] == UpTo(|s.started|);
    if s.request != [] && threads > 0 && forall w :: 0 <= w < |s.workers| ==> s.workers[w] == Waiting {
      assert s.workers[0] == Waiting;
      AllWait(s.workers);
      assert false;
    }
  }

  lemma {:induction false} AllWait(ws: seq<Worker>)
    requires forall w :: 0 <= w < |ws| ==> ws[w] == Waiting
    ensures Readies(ws) == 0
  {
    if ws != [] { AllWait(ws[1..]); }
  }

  lemma {:induction false} SameThreads(s: Pool, steps: seq<Step>, capacity: nat)
    requires Legal(s, steps, capacity)
    ensures |After(s, steps, capacity).workers| == |s.workers|
    decreases |steps|
  {
    if steps != [] {
      SameThreads(Next(s, steps[0], capacity), steps[1..], capacity);
    }
  }

  // ----- Every job gets finished

  /** A step that the pool makes of itself: no new job, no wake-up or event out of nothing, no failing read. */
  predicate Quiet(s: Pool, step: Step) {
    Enabled(s, step) && !step.Add? && !step.Spurious? && (step.Poll? ==> s.pipe > 0) && (step.Read? ==> !step.fails)
  }

  function AtMainLeft(m: Main, readable: bool): nat {
    match m
    case Idle => if readable then 5 else 0
    case Reading => if readable then 4 else 3
    case Draining => if readable then 6 else 1
    case Finishing(_) => if readable then 7 else 2
  }

  /** A bound on how many steps are left. */
  function Left(s: Pool): int {
    11 * |s.request| + Sum(s.workers, 1, 11, 8) + s.pipe + 2 * |s.reply| + AtMainLeft(s.main, s.pipe > 0)
  }

  lemma {:induction false} LeftNonNegative(ws: seq<Worker>)
    ensures Sum(ws, 1, 11, 8) >= 0
  {
    if ws != [] { LeftNonNegative(ws[1..]); }
  }

  lemma QuietStepDecreases(s: Pool, step: Step, capacity: nat)
    requires Inv(s) && Quiet(s, step)
    ensures 0 <= Left(Next(s, step, capacity)) < Left(s)
    ensures |Next(s, step, capacity).workers| == |s.workers| && Next(s, step, capacity).added == s.added
  {
    hide Ordered, NoLostWakeup, NoLostReply, OneWriter, LockFree;
    var t := Next(s, step, capacity);
    LeftNonNegative(t.workers);
    match step {
      case Look(w) => SumUpdate(s.workers, w, t.workers[w], 1, 11, 8);
      case Done(w) => SumUpdate(s.workers, w, Writing, 1, 11, 8);
      case Write(w) => SumUpdate(s.workers, w, Ready, 1, 11, 8);
      case Poll =>
      case Read(_) =>
      case Pop =>
      case Finish =>
    }
  }

  /** When the pool has nothing more to do of itself, every job that was added is finished. */
  lemma NothingLeft(s: Pool)
    requires Inv(s) && |s.workers| > 0 && forall step :: !Quiet(s, step)
    ensures multiset(s.finished) == multiset(UpTo(s.added)) && s.request == [] && s.reply == []
  {
    hide Held, Sum;
    forall w | 0 <= w < |s.workers| ensures s.workers[w] != Writing {
      assert !Quiet(s, Write(w));
    }
    forall w | 0 <= w < |s.workers| ensures s.workers[w] == Waiting {
      assert !Quiet(s, Look(w)) && !Quiet(s, Done(w));
    }
    assert !Quiet(s, Poll) && !Quiet(s, Read(false)) && !Quiet(s, Pop) && !Quiet(s, Finish);
    assert s.main == Idle && s.pipe == 0;
    assert s.workers[0] == Waiting;
    AllWait(s.workers);
    NoneHeld(s.workers);
    assert s.finished + [] + [] == s.finished;
    assert s.started + [] == s.started;
  }

  lemma {:induction false} NoneHeld(ws: seq<Worker>)
    requires forall w :: 0 <= w < |ws| ==> ws[w] == Waiting
    ensures Held(ws) == multiset{}
  {
    if ws != [] { NoneHeld(ws[1..]); }
  }

  ghost predicate QuietRun(s: Pool, steps: seq<Step>, capacity: nat)
    decreases |steps|
  {
    steps == [] || (Quiet(s, steps[0]) && QuietRun(Next(s, steps[0], capacity), steps[1..], capacity))
  }

  lemma {:induction false} QuietIsLegal(s: Pool, steps: seq<Step>, capacity: nat)
    requires QuietRun(s, steps, capacity)
    ensures Legal(s, steps, capacity)
    decreases |steps|
  {
    if steps != [] { QuietIsLegal(Next(s, steps[0], capacity), steps[1..], capacity); }
  }

  /** No schedule of the threads can go on for ever, and where one ends every job is finished. */
  lemma {:induction false} EveryScheduleFinishes(s: Pool, steps: seq<Step>, capacity: nat)
    requires Inv(s) && QuietRun(s, steps, capacity) && capacity > 0 && |s.workers| > 0
    ensures Legal(s, steps, capacity)
    ensures |steps| <= Left(s)
    ensures var t := After(s, steps, capacity);
      (forall step :: !Quiet(t, step)) ==> multiset(t.finished) == multiset(UpTo(s.added)) && t.added == s.added
    decreases |steps|
  {
    hide Inv, Enabled, UpTo;
    QuietIsLegal(s, steps, capacity);
    if steps == [] {
      LeftBound(s);
      if forall step :: !Quiet(s, step) { NothingLeft(s); }
    } else {
      StepKeeps(s, steps[0], capacity);
      QuietStepDecreases(s, steps[0], capacity);
      EveryScheduleFinishes(Next(s, steps[0], capacity), steps[1..], capacity);
    }
  }

  lemma LeftBound(s: Pool)
    ensures Left(s) >= 0
  {
    LeftNonNegative(s.workers);
  }
}
