/**
 The worker thread of the HTTP plugin: requests, the semaphore that wakes the worker, the drain on
 the engine thread and the destructor, interleaved at single operations on the shared objects.
 */
module HttpWorker {
  import opened MultipartFormat
  import opened Text

  /** A request as it is queued; without parts it is sent with its own body. */
  datatype Job = Job(url: string, body: string, boundary: string, parts: seq<FormData>)

  /** Where the worker thread is in its loop. */
  datatype Worker =
    | AtTest                // reads `running`
    | AtSize                // reads the size, to decide whether to wait
    | Blocked               // acquires the semaphore
    | AtRecheck             // reads the size again
    | AtPop
    | InHand(job: Job)
    | Exited

  datatype State = State(
    waiting: seq<Job>,
    done: seq<Job>,
    counter: nat,           // of the semaphore
    running: bool,
    worker: Worker,
    unreleased: nat,        // requests between push and release
    stopReleased: bool,     // the destructor has released too
    // History, which no code reads.
    submitted: seq<Job>,
    drained: seq<Job>,
    releases: nat,
    acquires: nat)

  const START := State([], [], 0, true, AtTest, 0, false, [], [], 0, 0)

  /**
   A release names the counter it leaves. The counter of a binary semaphore at 1 may not be
   released again; what the library makes of it is left open between two cases, that the counter
   stays and that it grows. A library that stops the program or loses the release is not covered.
   */
  datatype Step =
    | Push(job: Job)
    | Release(after: nat)
    | Test | Size | Acquire | Recheck | Pop | Complete
    | Drain
    | Stop
    | StopRelease(after: nat)

  predicate Enabled(s: State, step: Step) {
    match step
    case Push(_) => true
    case Release(after) => s.unreleased > 0 && 1 <= after <= s.counter + 1
    case Test => s.worker == AtTest
    case Size => s.worker == AtSize
    case Acquire => s.worker == Blocked && s.counter > 0
    case Recheck => s.worker == AtRecheck
    case Pop => s.worker == AtPop
    case Complete => s.worker.InHand?
    case Drain => s.done != []
    case Stop => s.running
    case StopRelease(after) => !s.running && !s.stopReleased && 1 <= after <= s.counter + 1
  }

  function Apply(s: State, step: Step): State
    requires Enabled(s, step)
    requires step == Pop ==> s.waiting != []
  {
    match step
    case Push(job) =>
      s.(waiting := s.waiting + [job], unreleased := s.unreleased + 1, submitted := s.submitted + [job])
    case Release(after) => s.(counter := after, unreleased := s.unreleased - 1, releases := s.releases + 1)
    case Test => s.(worker := if s.running then AtSize else Exited)
    case Size => s.(worker := if s.waiting == [] then Blocked else AtRecheck)
    case Acquire => s.(worker := AtRecheck, counter := s.counter - 1, acquires := s.acquires + 1)
    case Recheck => s.(worker := if s.waiting == [] then AtTest else AtPop)
    case Pop => s.(worker := InHand(s.waiting[0]), waiting := s.waiting[1..])
    case Complete => s.(worker := AtTest, done := s.done + [s.worker.job])
    case Drain => s.(done := s.done[1..], drained := s.drained + [s.done[0]])
    case Stop => s.(running := false)
    case StopRelease(after) => s.(counter := after, stopReleased := true, releases := s.releases + 1)
  }

  function Hand(s: State): seq<Job> {
    if s.worker.InHand? then [s.worker.job] else []
  }

  /** No job is lost, invented, repeated or overtaken. */
  predicate Conserved(s: State) {
    s.submitted == s.drained + (s.done + (Hand(s) + s.waiting))
  }

  predicate Awake(s: State) {
    && (s.worker == AtPop ==> s.waiting != [])
    && (s.worker == Blocked && s.waiting != [] ==> s.counter > 0 || s.unreleased > 0)
    && (s.stopReleased ==> !s.running)
    && (s.stopReleased && (s.worker == AtSize || s.worker == Blocked) ==> s.counter > 0)
  }

  predicate Inv(s: State) {
    Conserved(s) && Awake(s)
  }

  lemma PushConserves(s: State, job: Job)
    requires Conserved(s)
    ensures Conserved(Apply(s, Push(job)))
  {}

  lemma PopConserves(s: State)
    requires Conserved(s) && s.worker == AtPop && s.waiting != []
    ensures Conserved(Apply(s, Pop))
  {
    assert s.waiting == [s.waiting[0]] + s.waiting[1..];
    assert [] + s.waiting == s.waiting;
  }

  lemma CompleteConserves(s: State)
    requires Conserved(s) && s.worker.InHand?
    ensures Conserved(Apply(s, Complete))
  {
    assert s.done + ([s.worker.job] + s.waiting) == s.done + [s.worker.job] + ([] + s.waiting);
  }

  lemma DrainConserves(s: State)
    requires Conserved(s) && s.done != []
    ensures Conserved(Apply(s, Drain))
  {
    var rest := Hand(s) + s.waiting;
    assert s.drained + (s.done + rest) == s.drained + [s.done[0]] + (s.done[1..] + rest);
  }

  lemma StepKeepsInv(s: State, step: Step)
    requires Inv(s) && Enabled(s, step)
    ensures Inv(Apply(s, step))
  {
    match step
    case Push(job) => PushConserves(s, job);
    case Pop => PopConserves(s);
    case Complete => CompleteConserves(s);
    case Drain => DrainConserves(s);
    case _ => assert Hand(Apply(s, step)) == Hand(s);
  }

  // ---- Whole runs

  ghost predicate Feasible(s: State, steps: seq<Step>)
    decreases |steps|
  {
    steps == [] ||
    (Enabled(s, steps[0]) && (steps[0] == Pop ==> s.waiting != []) && Feasible(Apply(s, steps[0]), steps[1..]))
  }

  ghost function Exec(s: State, steps: seq<Step>): State
    requires Feasible(s, steps)
    decreases |steps|
  {
    if steps == [] then s else Exec(Apply(s, steps[0]), steps[1..])
  }

  ghost predicate Reachable(s: State) {
    exists steps :: Feasible(START, steps) && Exec(START, steps) == s
  }

  lemma {:induction false} RunKeepsInv(s: State, steps: seq<Step>)
    requires Inv(s) && Feasible(s, steps)
    ensures Inv(Exec(s, steps))
    decreases |steps|
  {
    if steps != [] {
      StepKeepsInv(s, steps[0]);
      RunKeepsInv(Apply(s, steps[0]), steps[1..]);
    }
  }

  /**
   In every reachable state the jobs submitted are those handed to callbacks, those done, the
   one in hand and those waiting, in this order; the queue is never popped empty; and a worker
   that blocks with a job waiting has a release to wake it, made or on its way.
   */
  lemma JobsInOrder(s: State)
    requires Reachable(s)
    ensures s.submitted == s.drained + (s.done + (Hand(s) + s.waiting))
    ensures s.worker == AtPop ==> s.waiting != []
    ensures s.worker == Blocked && s.waiting != [] && s.unreleased == 0 ==> Enabled(s, Acquire)
  {
    var steps :| Feasible(START, steps) && Exec(START, steps) == s;
    RunKeepsInv(START, steps);
  }

  predicate OfWorker(step: Step) {
    step.Test? || step.Size? || step.Acquire? || step.Recheck? || step.Pop? || step.Complete?
  }

  /** The worker's next step, if it is not held up by the semaphore. */
  function Next(s: State): Step
    requires s.worker != Exited
  {
    match s.worker
    case AtTest => Test
    case AtSize => Size
    case Blocked => Acquire
    case AtRecheck => Recheck
    case AtPop => Pop
    case InHand(_) => Complete
  }

  /** Steps that a running worker is away from taking the next waiting job. */
  function Distance(w: Worker): nat {
    match w
    case AtPop => 0 case AtRecheck => 1 case Blocked => 2 case AtSize => 3 case AtTest => 4 case InHand(_) => 5
    case Exited => 6
  }

  /** Steps that a worker told to stop is away from the end of its thread. */
  function ToExit(w: Worker): nat {
    match w
    case Exited => 0 case AtTest => 1 case InHand(_) => 2 case AtPop => 3 case AtRecheck => 4 case Blocked => 5
    case AtSize => 6
  }

  /** A running worker has not exited. */
  lemma {:induction false} RunningLives(s: State, steps: seq<Step>)
    requires Feasible(s, steps) && (s.running ==> s.worker != Exited)
    ensures Exec(s, steps).running ==> Exec(s, steps).worker != Exited
    decreases |steps|
  {
    if steps != [] {
      RunningLives(Apply(s, steps[0]), steps[1..]);
    }
  }

  /** A waiting job is reached: each step of a running worker takes it or comes closer. */
  lemma WorkerComesCloser(s: State)
    requires Reachable(s) && s.running && s.waiting != [] && s.unreleased == 0
    ensures s.worker != Exited && Enabled(s, Next(s))
    ensures Next(s) == Pop || Distance(Apply(s, Next(s)).worker) < Distance(s.worker)
    ensures Next(s) == Pop ==> Apply(s, Next(s)).worker == InHand(s.waiting[0])
  {
    JobsInOrder(s);
    var steps :| Feasible(START, steps) && Exec(START, steps) == s;
    RunningLives(START, steps);
  }

  /**
   After the destructor's store and release the join returns: the worker always has a step, each
   step of it comes closer to the end, and no step of another thread moves it back.
   */
  lemma WorkerExits(s: State, step: Step)
    requires Reachable(s) && s.stopReleased && s.worker != Exited
    ensures Enabled(s, Next(s))
    ensures Enabled(s, step) && OfWorker(step) ==> step == Next(s)
    ensures (Enabled(s, step) ==>
               && (step == Pop ==> s.waiting != [])
               && Apply(s, step).stopReleased
               && if OfWorker(step) then ToExit(Apply(s, step).worker) < ToExit(s.worker)
                  else Apply(s, step).worker == s.worker)
  {
    var steps :| Feasible(START, steps) && Exec(START, steps) == s;
    RunKeepsInv(START, steps);
  }

  // ---- Releases in contract

  /** The counter that a release leaves, if the step is one. */
  function ReleasedTo(step: Step): Option<nat> {
    match step
    case Release(after) => Some(after)
    case StopRelease(after) => Some(after)
    case _ => None
  }

  /** A binary semaphore may be released while its counter is 0. */
  predicate InContract(s: State, step: Step) {
    ReleasedTo(step) != None ==> s.counter == 0
  }

  /** Each release adds one, as a semaphore with room does. */
  predicate AddsOne(s: State, step: Step) {
    ReleasedTo(step) != None ==> ReleasedTo(step) == Some(s.counter + 1)
  }

  ghost predicate AllAddOne(s: State, steps: seq<Step>)
    requires Feasible(s, steps)
    decreases |steps|
  {
    steps != [] ==> AddsOne(s, steps[0]) && AllAddOne(Apply(s, steps[0]), steps[1..])
  }

  ghost predicate AllInContract(s: State, steps: seq<Step>)
    requires Feasible(s, steps)
    decreases |steps|
  {
    steps != [] ==> InContract(s, steps[0]) && AllInContract(Apply(s, steps[0]), steps[1..])
  }

  /** In contract there is no choice for the library. */
  lemma {:induction false} ContractAddsOne(s: State, steps: seq<Step>)
    requires Feasible(s, steps) && AllInContract(s, steps)
    ensures AllAddOne(s, steps)
    decreases |steps|
  {
    if steps != [] {
      ContractAddsOne(Apply(s, steps[0]), steps[1..]);
    }
  }

  lemma {:induction false} CounterCounts(s: State, steps: seq<Step>)
    requires Feasible(s, steps) && AllAddOne(s, steps) && s.counter == s.releases - s.acquires
    ensures var t := Exec(s, steps); t.counter == t.releases - t.acquires
    decreases |steps|
  {
    if steps != [] {
      CounterCounts(Apply(s, steps[0]), steps[1..]);
    }
  }

  /**
   After a run whose releases all added one, as they do as long as they are in contract, the next
   release is in contract if and only if every release before has been acquired.
   */
  lemma ReleaseInContract(steps: seq<Step>, step: Step)
    requires Feasible(START, steps) && (AllAddOne(START, steps) || AllInContract(START, steps))
    requires Enabled(Exec(START, steps), step) && ReleasedTo(step) != None
    ensures var s := Exec(START, steps);
      && s.counter == s.releases - s.acquires
      && (InContract(s, step) <==> s.acquires == s.releases)
  {
    if AllInContract(START, steps) { ContractAddsOne(START, steps); }
    CounterCounts(START, steps);
  }

  /** A state of a run in which every release so far was in contract. */
  ghost predicate ReachedInContract(s: State) {
    exists steps :: Feasible(START, steps) && AllInContract(START, steps) && Exec(START, steps) == s
  }

  lemma {:induction false} RunMore(s: State, steps: seq<Step>, step: Step)
    requires Feasible(s, steps) && AllInContract(s, steps)
    requires var t := Exec(s, steps); Enabled(t, step) && (step == Pop ==> t.waiting != []) && InContract(t, step)
    ensures var more := steps + [step];
      Feasible(s, more) && AllInContract(s, more) && Exec(s, more) == Apply(Exec(s, steps), step)
    decreases |steps|
  {
    var more := steps + [step];
    if steps == [] {
      assert more == [step] && more[1..] == [];
    } else {
      assert more[0] == steps[0] && more[1..] == steps[1..] + [step];
      RunMore(Apply(s, steps[0]), steps[1..], step);
    }
  }

  lemma StepInContract(s: State, step: Step)
    requires ReachedInContract(s) && Enabled(s, step) && (step == Pop ==> s.waiting != []) && InContract(s, step)
    ensures ReachedInContract(Apply(s, step))
  {
    var steps :| Feasible(START, steps) && AllInContract(START, steps) && Exec(START, steps) == s;
    RunMore(START, steps, step);
  }

  lemma StartInContract()
    ensures ReachedInContract(START)
  {
    assert Feasible(START, []) && AllInContract(START, []) && Exec(START, []) == START;
  }

  /** Two requests in a row: the second release finds the counter at 1, which the standard does not allow. */
  lemma SecondReleaseFindsCounterAtOne(a: Job, b: Job) returns (s: State)
    ensures ReachedInContract(s) && s.submitted == [a, b] && s.releases == 1 && s.acquires == 0
    ensures forall step :: Enabled(s, step) && ReleasedTo(step) != None ==> !InContract(s, step)
    ensures Enabled(s, Release(2))
  {
    StartInContract();
    s := START;
    StepInContract(s, Push(a));
    s := Apply(s, Push(a));
    StepInContract(s, Release(1));
    s := Apply(s, Release(1));
    StepInContract(s, Push(b));
    s := Apply(s, Push(b));
  }

  /**
   Waiting until a job is handed out before the next request is not enough: a worker that finds the
   queue not empty takes the job without an acquire.
   */
  lemma DoneIsNotAcquired(a: Job, b: Job) returns (s: State)
    ensures ReachedInContract(s) && s.drained == [a] && s.waiting == [b] && s.releases == 1 && s.acquires == 0
    ensures Enabled(s, Release(2)) && !InContract(s, Release(2))
  {
    s := TakenWithoutAcquire(a);
    StepInContract(s, Push(b));
    s := Apply(s, Push(b));
  }

  /** The worker reads the size after the push, and so does not wait. */
  lemma FoundNotEmpty(a: Job) returns (s: State)
    ensures ReachedInContract(s)
    ensures s == START.(counter := 1, waiting := [a], worker := AtRecheck, submitted := [a], releases := 1)
  {
    StartInContract();
    s := START;
    StepInContract(s, Push(a));
    s := Apply(s, Push(a));
    StepInContract(s, Release(1));
    s := Apply(s, Release(1));
    StepInContract(s, Test);
    s := Apply(s, Test);
    StepInContract(s, Size);
    s := Apply(s, Size);
  }

  lemma TakenWithoutAcquire(a: Job) returns (s: State)
    ensures ReachedInContract(s) && s == START.(counter := 1, submitted := [a], drained := [a], releases := 1)
  {
    s := FoundNotEmpty(a);
    StepInContract(s, Recheck);
    s := Apply(s, Recheck);
    StepInContract(s, Pop);
    s := Apply(s, Pop);
    assert s == START.(counter := 1, worker := InHand(a), submitted := [a], releases := 1);
    StepInContract(s, Complete);
    s := Apply(s, Complete);
    StepInContract(s, Drain);
    s := Apply(s, Drain);
  }

  // ---- The code

  /** What a job becomes: the outcome is decided by the transport. */
  datatype Finished = Finished(job: Job, sentBody: string, ok: bool)

  function JobsOf(finished: seq<Finished>): seq<Job> {
    seq(|finished|, i requires 0 <= i < |finished| => finished[i].job)
  }

  lemma JobsOfMore(finished: seq<Finished>, f: Finished)
    ensures JobsOf(finished + [f]) == JobsOf(finished) + [f.job]
  {}

  class Http {
    var running: bool
    var counter: nat
    var waiting: seq<Job>
    var done: seq<Finished>
    ghost var model: State

    ghost predicate Valid()
      reads this
    {
      && model.running == running && model.counter == counter && model.waiting == waiting
      && model.done == JobsOf(done) && Inv(model)
    }

    constructor ()
      ensures Valid() && model == START
    {
      running, counter, waiting, done := true, 0, [], [];
      model := START;
    }

    /** Push, then release; `after` is what the semaphore makes of the release. */
    method Request(job: Job, after: nat)
      requires Valid() && 1 <= after <= counter + 1
      modifies this
      ensures Valid() && model == Apply(Apply(old(model), Push(job)), Release(after))
      ensures waiting == old(waiting) + [job] && counter > 0 && done == old(done)
    {
      StepKeepsInv(model, Push(job));
      StepKeepsInv(Apply(model, Push(job)), Release(after));
      model := Apply(Apply(model, Push(job)), Release(after));
      waiting := waiting + [job];
      counter := after;
    }

    /** The part of the loop that follows the pop: the body is built, the request performed. */
    method Perform(job: Job, transport: (string, string) -> bool)
      requires Valid() && model.worker == InHand(job)
      modifies this`done, this`model
      ensures Valid() && model == Apply(old(model), Complete)
      ensures done == old(done) + [Finished(job, SentBody(job), transport(job.url, SentBody(job)))]
    {
      var body := job.body;
      if job.parts != [] {
        body := BuildWorkerBody(job.parts, job.boundary);
      }
      JobsOfMore(done, Finished(job, body, transport(job.url, body)));
      done := done + [Finished(job, body, transport(job.url, body))];
      StepKeepsInv(model, Complete);
      model := Apply(model, Complete);
    }

    method TakeJob() returns (job: Job)
      requires Valid() && model.worker == AtPop
      modifies this`waiting, this`model
      ensures Valid() && model == Apply(old(model), Pop) && old(waiting) == [job] + waiting
      ensures model.worker == InHand(job)
    {
      StepKeepsInv(model, Pop);
      job := waiting[0];
      waiting := waiting[1..];
      model := Apply(model, Pop);
    }

    /** The engine thread empties the done queue, oldest first. */
    method DrainAll() returns (called: seq<Finished>)
      requires Valid()
      modifies this`done, this`model
      ensures Valid() && called == old(done) && done == []
      ensures model.drained == old(model).drained + JobsOf(called) && model.submitted == old(model).submitted
      ensures model == old(model).(done := [], drained := model.drained)
    {
      called := [];
      while done != []
        invariant Valid() && called + done == old(done)
        invariant model == old(model).(done := JobsOf(done), drained := old(model).drained + JobsOf(called))
        decreases |done|
      {
        var f := done[0];
        assert called + done == called + [f] + done[1..];
        assert JobsOf(done)[1..] == JobsOf(done[1..]);
        JobsOfMore(called, f);
        assert old(model).drained + JobsOf(called) + [f.job] == old(model).drained + (JobsOf(called) + [f.job]);
        StepKeepsInv(model, Drain);
        model := Apply(model, Drain);
        called := called + [f];
        done := done[1..];
      }
    }
  }

  /** What goes over the wire for a job. */
  function SentBody(job: Job): string {
    if job.parts == [] then job.body else Body(job.parts, job.boundary)
  }
}
