/**
 Promises of HTTP requests: the script thread creates, settles and cleans up, the engine thread
 offers finished jobs to the host, and the host runs what it accepted, now or later, or drops it.
 */
module HttpPromises {
  import opened Listing

  datatype Script =
    | Idle
    | Settling(id: nat)              // taken from `pending`, the promise function not yet called
    | Releasing(id: nat)             // called, the handles not yet released
    | Cleaning(left: seq<nat>)

  datatype Engine =
    | Waiting
    | Offering(id: nat)              // the checks passed, the host not yet asked

  datatype State = State(
    active: bool,
    nextId: nat,
    pending: set<nat>,
    released: set<nat>,              // the flag of each promise
    jobs: multiset<nat>,             // requests whose callback is still to come
    tasks: multiset<nat>,            // what the host accepted and has not run
    script: Script,
    engine: Engine,
    // History, which no code reads.
    settled: seq<nat>,
    freed: seq<nat>)

  const START := State(true, 1, {}, {}, multiset{}, multiset{}, Idle, Waiting, [], [])

  /** An inline dispatch is `Accept` with `Run` right after it. */
  datatype Step =
    | Request
    | Callback(id: nat)
    | Accept
    | Reject
    | Run(id: nat)
    | Discard(id: nat)
    | Call
    | Free
    | Cleanup(order: seq<nat>)
    | CleanOne

  ghost predicate Enabled(s: State, step: Step) {
    match step
    case Request => s.script == Idle && s.active
    case Callback(id) => s.engine == Waiting && id in s.jobs
    case Accept => s.engine.Offering?
    case Reject => s.engine.Offering?
    case Run(id) => s.script == Idle && id in s.tasks
    case Discard(id) => id in s.tasks
    case Call => s.script.Settling?
    case Free => s.script.Releasing?
    case Cleanup(order) => s.script == Idle && s.active && Enumerates(order, s.pending)
    case CleanOne => s.script.Cleaning?
  }

  ghost function Apply(s: State, step: Step): State
    requires Enabled(s, step)
  {
    match step
    case Request =>
      s.(nextId := s.nextId + 1, pending := s.pending + {s.nextId}, jobs := s.jobs + multiset{s.nextId})
    case Callback(id) =>
      s.(jobs := s.jobs - multiset{id}, engine := if !s.active || id in s.released then Waiting else Offering(id))
    case Accept => s.(tasks := s.tasks + multiset{s.engine.id}, engine := Waiting)
    case Reject => s.(engine := Waiting)
    case Run(id) =>
      var t := s.(tasks := s.tasks - multiset{id});
      if !s.active || id in s.released then t else t.(pending := s.pending - {id}, script := Settling(id))
    case Discard(id) => s.(tasks := s.tasks - multiset{id})
    case Call => s.(settled := s.settled + [s.script.id], script := Releasing(s.script.id))
    case Free => Release(s.(script := Idle), s.script.id)
    case Cleanup(order) => s.(active := false, pending := {}, script := Cleaning(order))
    case CleanOne =>
      if s.script.left == [] then s.(script := Idle)
      else Release(s.(script := Cleaning(s.script.left[1..])), s.script.left[0])
  }

  /** Releases the handles of a promise unless that was done before. */
  function Release(s: State, id: nat): State {
    if id in s.released then s else s.(released := s.released + {id}, freed := s.freed + [id])
  }

  // ---- What every step keeps

  ghost predicate Held(s: State, id: nat) {
    || (s.script.Settling? && s.script.id == id)
    || (s.script.Releasing? && s.script.id == id)
    || (s.script.Cleaning? && id in s.script.left)
  }

  /** A promise is pending, held by the script thread, or released, and only one of these. */
  ghost predicate Placed(s: State) {
    && (forall id: nat :: 1 <= id < s.nextId <==> id in s.pending || Held(s, id) || id in s.released)
    && (forall id :: id in s.pending ==> !Held(s, id) && id !in s.released)
    && (forall id :: Held(s, id) ==> id !in s.released)
    && (s.script.Cleaning? ==> Distinct(s.script.left))
    && 1 <= s.nextId
  }

  ghost predicate Once(s: State) {
    && Distinct(s.settled) && Distinct(s.freed)
    && (forall id :: id in s.freed <==> id in s.released)
    && (forall id :: id in s.settled ==> id in s.released || s.script == Releasing(id))
  }

  ghost predicate Known(s: State) {
    && (forall id :: id in s.jobs ==> 1 <= id < s.nextId)
    && (forall id :: id in s.tasks ==> 1 <= id < s.nextId)
    && (s.engine.Offering? ==> 1 <= s.engine.id < s.nextId)
  }

  ghost predicate Cleaned(s: State) {
    && (s.script.Cleaning? ==> !s.active)
    && (!s.active ==> s.pending == {} && !s.script.Settling? && !s.script.Releasing?)
  }

  ghost predicate Inv(s: State) {
    Placed(s) && Once(s) && Known(s) && Cleaned(s)
  }

  lemma CleanOneKeeps(s: State)
    requires Inv(s) && Enabled(s, CleanOne)
    ensures Inv(Apply(s, CleanOne))
  {
    var left := s.script.left;
    if left != [] {
      assert left == [left[0]] + left[1..];
      FirstCleanedKeeps(s, left[0], left[1..]);
      FirstCleaned(s, left[0], left[1..]);
    }
  }

  /** The state after the first of the promises left is released. */
  function CleanedFirst(s: State, id: nat, rest: seq<nat>): State {
    s.(script := Cleaning(rest), released := s.released + {id}, freed := s.freed + [id])
  }

  lemma FirstCleaned(s: State, id: nat, rest: seq<nat>)
    requires Placed(s) && s.script == Cleaning([id] + rest)
    ensures Apply(s, CleanOne) == CleanedFirst(s, id, rest) && id !in s.released
  {
    assert Held(s, id);
    assert ([id] + rest)[1..] == rest;
  }

  lemma FirstCleanedPlaced(s: State, id: nat, rest: seq<nat>)
    requires Placed(s) && s.script == Cleaning([id] + rest)
    ensures Placed(CleanedFirst(s, id, rest))
  {
    var t := CleanedFirst(s, id, rest);
    DistinctRest(id, rest);
    assert forall x :: x in [id] + rest <==> x in rest || x == id;
    assert forall x :: Held(t, x) <==> x in rest;
    assert forall x :: Held(s, x) <==> x in rest || x == id;
  }

  lemma FirstCleanedKeeps(s: State, id: nat, rest: seq<nat>)
    requires Inv(s) && s.script == Cleaning([id] + rest)
    ensures Inv(CleanedFirst(s, id, rest))
  {
    assert Held(s, id);
    FirstCleanedPlaced(s, id, rest);
    DistinctAppend(s.freed, id);
  }

  lemma CleanupKeeps(s: State, order: seq<nat>)
    requires Inv(s) && Enabled(s, Cleanup(order))
    ensures Inv(Apply(s, Cleanup(order)))
  {
    var t := Apply(s, Cleanup(order));
    assert forall id :: Held(t, id) <==> id in s.pending;
  }

  lemma FreeKeeps(s: State)
    requires Inv(s) && Enabled(s, Free)
    ensures Inv(Apply(s, Free))
  {
    var t := Apply(s, Free);
    assert Held(s, s.script.id);
    assert t.freed == s.freed + [s.script.id];
  }

  lemma CallKeeps(s: State)
    requires Inv(s) && Enabled(s, Call)
    ensures Inv(Apply(s, Call))
  {
    var id := s.script.id;
    assert Held(s, id);
    assert id !in s.settled;
    assert Held(Apply(s, Call), id);
  }

  lemma RunKeeps(s: State, id: nat)
    requires Inv(s) && Enabled(s, Run(id))
    ensures Inv(Apply(s, Run(id)))
  {
    var t := Apply(s, Run(id));
    if s.active && id !in s.released {
      assert forall x :: Held(t, x) <==> x == id;
    }
  }

  lemma OthersKeep(s: State, step: Step)
    requires Inv(s) && Enabled(s, step)
    requires step.Request? || step.Callback? || step.Accept? || step.Reject? || step.Discard?
    ensures Inv(Apply(s, step))
  {
    assert forall id :: Held(Apply(s, step), id) <==> Held(s, id);
  }

  lemma StepKeepsInv(s: State, step: Step)
    requires Inv(s) && Enabled(s, step)
    ensures Inv(Apply(s, step))
  {
    match step
    case Run(id) => RunKeeps(s, id);
    case Call => CallKeeps(s);
    case Free => FreeKeeps(s);
    case Cleanup(order) => CleanupKeeps(s, order);
    case CleanOne => CleanOneKeeps(s);
    case _ => OthersKeep(s, step);
  }

  // ---- Whole runs

  ghost predicate Feasible(s: State, steps: seq<Step>)
    decreases |steps|
  {
    steps == [] || (Enabled(s, steps[0]) && Feasible(Apply(s, steps[0]), steps[1..]))
  }

  ghost function Exec(s: State, steps: seq<Step>): State
    requires Feasible(s, steps)
    decreases |steps|
  {
    if steps == [] then s else Exec(Apply(s, steps[0]), steps[1..])
  }

  ghost predicate Reachable(s: State) {
    exists steps :: Feasible(START, steps) && Exec(START, steps) == s
  }

  lemma {:induction false} RunKeepsInv(s: State, steps: seq<Step>)
    requires Inv(s) && Feasible(s, steps)
    ensures Inv(Exec(s, steps))
    decreases |steps|
  {
    if steps != [] {
      StepKeepsInv(s, steps[0]);
      RunKeepsInv(Apply(s, steps[0]), steps[1..]);
    }
  }

  lemma ReachableInv(s: State)
    requires Reachable(s)
    ensures Inv(s)
  {
    var steps :| Feasible(START, steps) && Exec(START, steps) == s;
    RunKeepsInv(START, steps);
  }

  lemma AllFreed(s: State)
    requires Inv(s) && !s.active && s.script == Idle
    ensures forall id :: 1 <= id < s.nextId ==> Count(s.freed, id) == 1
  {
    forall id | 1 <= id < s.nextId ensures Count(s.freed, id) == 1 {
      CountOnce(s.freed, id);
    }
  }

  /** A promise is settled at most once, and its handles are released at most once, after that. */
  lemma SettledAtMostOnce(s: State, id: nat)
    requires Reachable(s) && 1 <= id < s.nextId
    ensures Count(s.settled, id) <= 1
    ensures Count(s.freed, id) == if id in s.released then 1 else 0
    ensures id in s.pending ==> id !in s.settled && id !in s.freed
    ensures !s.active && s.script == Idle ==> Count(s.freed, id) == 1
  {
    ReachableInv(s);
    CountOnce(s.settled, id);
    CountOnce(s.freed, id);
  }

  lemma InactiveStep(s: State, step: Step)
    requires Inv(s) && !s.active && Enabled(s, step)
    ensures !Apply(s, step).active && Apply(s, step).settled == s.settled
    ensures s.script == Idle ==> Apply(s, step).freed == s.freed && Apply(s, step).script == Idle
  {}

  /** From cleanup on nothing is settled, and from its end on nothing is released. */
  lemma {:induction false} NothingAfterCleanup(s: State, steps: seq<Step>)
    requires Reachable(s) && !s.active && Feasible(s, steps)
    ensures Exec(s, steps).settled == s.settled
    ensures s.script == Idle ==> Exec(s, steps).freed == s.freed
  {
    ReachableInv(s);
    InactiveRun(s, steps);
  }

  lemma {:induction false} InactiveRun(s: State, steps: seq<Step>)
    requires Inv(s) && !s.active && Feasible(s, steps)
    ensures Exec(s, steps).settled == s.settled
    ensures s.script == Idle ==> Exec(s, steps).freed == s.freed
    decreases |steps|
  {
    if steps != [] {
      StepKeepsInv(s, steps[0]);
      InactiveStep(s, steps[0]);
      InactiveRun(Apply(s, steps[0]), steps[1..]);
    }
  }

  // ---- The code on the script thread

  /** A task in one go: the checks, the call and the release. */
  ghost function Finished(s: State, id: nat): State
    requires Enabled(s, Run(id)) && s.active && id !in s.released
  {
    Apply(Apply(Apply(s, Run(id)), Call), Free)
  }

  lemma RunToRelease(s: State, id: nat)
    requires Inv(s) && Enabled(s, Run(id)) && s.active && id !in s.released
    ensures var t := Finished(s, id);
      && Inv(t) && t.active && t.nextId == s.nextId && t.pending == s.pending - {id}
      && t.settled == s.settled + [id] && t.released == s.released + {id} && t.freed == s.freed + [id]
  {
    var t := Apply(s, Run(id));
    StepKeepsInv(s, Run(id));
    StepKeepsInv(t, Call);
    StepKeepsInv(Apply(t, Call), Free);
  }

  lemma RunSkips(s: State, id: nat)
    requires Inv(s) && Enabled(s, Run(id)) && (!s.active || id in s.released)
    ensures Inv(Apply(s, Run(id))) && Apply(s, Run(id)) == s.(tasks := s.tasks - multiset{id})
  {
    StepKeepsInv(s, Run(id));
  }

  class Context {
    var active: bool
    var nextRequestId: nat
    var pending: set<nat>
    var released: set<nat>
    var settled: seq<nat>  // calls of a resolve or reject function
    var freed: seq<nat>    // releases of a pair of such functions
    ghost var model: State

    ghost predicate Valid()
      reads this
    {
      && model.active == active && model.nextId == nextRequestId && model.pending == pending
      && model.released == released && model.settled == settled && model.freed == freed && Inv(model)
    }

    method ReleasePromise(id: nat)
      modifies this`released, this`freed
      ensures id in old(released) ==> released == old(released) && freed == old(freed)
      ensures id !in old(released) ==> released == old(released) + {id} && freed == old(freed) + [id]
    {
      if id in released {
        return;
      }
      released := released + {id};
      freed := freed + [id];
    }

    /** A task of the host, from its checks to the release. */
    method SettleRequest(id: nat) returns (called: bool)
      requires Valid() && Enabled(model, Run(id))
      modifies this`pending, this`released, this`settled, this`freed, this`model
      ensures Valid() && called == (active && id !in old(released))
      ensures model == if called then Finished(old(model), id) else Apply(old(model), Run(id))
    {
      if !active || id in released {
        RunSkips(model, id);
        model := Apply(model, Run(id));
        return false;
      }
      RunToRelease(model, id);
      pending := pending - {id};
      settled := settled + [id];
      ReleasePromise(id);
      model := Finished(model, id);
      called := true;
    }

    /** One turn of the loop of the cleanup. */
    method CleanNext(id: nat, ghost rest: seq<nat>)
      requires Valid() && model.script == Cleaning([id] + rest)
      modifies this`released, this`freed, this`model
      ensures Valid() && model.script == Cleaning(rest) && released == old(released) + {id}
    {
      CleanOneKeeps(model);
      FirstCleaned(model, id, rest);
      ReleasePromise(id);
      model := Apply(model, CleanOne);
    }

    method CleanAll(order: seq<nat>)
      requires Valid() && model.script == Cleaning(order)
      modifies this`released, this`freed, this`model
      ensures Valid() && model.script == Cleaning([])
      ensures forall id :: id in released <==> id in old(released) || id in order
    {
      var left := order;
      while left != []
        invariant Valid() && model.script == Cleaning(left)
        invariant forall id :: id in released || id in left <==> id in old(released) || id in order
        decreases |left|
      {
        assert left == [left[0]] + left[1..];
        CleanNext(left[0], left[1..]);
        left := left[1..];
      }
    }

    /** Cleanup of a script context: every promise still pending is released, none is settled. */
    method CleanupContext()
      requires Valid() && model.script == Idle && active
      modifies this`active, this`pending, this`released, this`freed, this`model
      ensures Valid() && !active && model.script == Idle && pending == {}
      ensures settled == old(settled) && released == old(released) + old(pending)
      ensures forall id :: 1 <= id < nextRequestId ==> Count(freed, id) == 1
    {
      var left := ListPending();
      active, pending := false, {};
      CleanupKeeps(model, left);
      model := Apply(model, Cleanup(left));
      CleanAll(left);
      CleanOneKeeps(model);
      model := Apply(model, CleanOne);
      AllFreed(model);
    }

    method ListPending() returns (order: seq<nat>)
      ensures Enumerates(order, pending)
    {
      order := [];
      var todo := pending;
      while todo != {}
        invariant todo <= pending && Enumerates(order, pending - todo)
        decreases |todo|
      {
        var id :| id in todo;
        ListOneMore(order, pending, todo, id);
        order := order + [id];
        todo := todo - {id};
      }
      assert pending - {} == pending;
    }
  }
}
