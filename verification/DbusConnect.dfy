/**
 Connecting: script calls of `connect`, the connector thread and shutdown, interleaved at the
 granularity of `connectWaitersMutex`.
 */
module DbusConnect {
  import opened Listing

  /** What a connect promise is told, once. */
  datatype Outcome = Outcome(id: nat, ok: bool)

  /** Where the script thread is in `connect`. */
  datatype Script =
    | Idle
    | Checked(id: nat)   // no connection was seen, the promise exists, the lock is not taken
    | Starting           // registered, and the one to start the connector

  /** Where the connector thread is. */
  datatype Connector =
    | Absent
    | Opening
    | Opened(ok: bool)
    | Installing
    | Collecting(ok: bool)
    | Reporting(ids: seq<nat>, ok: bool)

  datatype State = State(
    connected: bool,           // a connection is installed
    alive: bool,               // and it is not lost
    connecting: bool,
    waiters: seq<nat>,
    script: Script,
    connector: Connector,
    shuttingDown: bool,
    down: bool,
    notified: seq<Outcome>,    // outcomes queued, in order
    // History, which no code reads.
    made: seq<nat>,            // connect promises in order of creation
    attempts: seq<bool>,       // the outcomes of finished attempts to open a bus
    joined: map<nat, nat>,     // the attempt that a waiter waits for
    dropped: seq<nat>)         // waiters forgotten by shutdown

  const START := State(false, false, false, [], Idle, Absent, false, false, [], [], [], map[], [])

  datatype Step =
    | Begin(id: nat)
    | Enter
    | Start
    | Open(ok: bool)
    | Check
    | Install
    | Collect
    | Report
    | Lose
    | Reconnect
    | BeginShutdown
    | FinishShutdown

  predicate Enabled(s: State, step: Step) {
    match step
    case Begin(id) => s.script == Idle && !s.connected && !s.shuttingDown && id !in s.made
    case Enter => s.script.Checked?
    case Start => s.script == Starting && s.connector == Absent       // after the join
    case Open(_) => s.connector == Opening
    case Check => s.connector.Opened?
    case Install => s.connector == Installing
    case Collect => s.connector.Collecting?
    case Report => s.connector.Reporting?
    case Lose => s.connected && s.alive
    case Reconnect => s.script == Idle && !s.shuttingDown && s.connected && !s.alive && s.connector == Absent
    case BeginShutdown => s.script == Idle && !s.shuttingDown
    case FinishShutdown => s.shuttingDown && !s.down && s.connector == Absent
  }

  function Apply(s: State, step: Step): State
    requires Enabled(s, step)
  {
    match step
    case Begin(id) => s.(script := Checked(id), made := s.made + [id])
    case Enter =>
      var id := s.script.id;
      if s.connected then s.(script := Idle, notified := s.notified + [Outcome(id, true)])
      else
        s.(waiters := s.waiters + [id], script := if s.connecting then Idle else Starting, connecting := true,
           joined := s.joined[id := |s.attempts|])
    case Start => s.(script := Idle, connector := Opening)
    case Open(ok) => s.(connector := Opened(ok))
    case Check =>
      if !s.connector.ok then s.(connector := Collecting(false))
      else if s.shuttingDown then s.(connector := Absent, connecting := false)
      else s.(connector := Installing)
    case Install => s.(connector := Collecting(true), connected := true, alive := true)
    case Collect =>
      s.(connector := Reporting(s.waiters, s.connector.ok), waiters := [], connecting := false,
         attempts := s.attempts + [s.connector.ok])
    case Report => s.(connector := Absent, notified := s.notified + Outcomes(s.connector.ids, s.connector.ok))
    case Lose => s.(alive := false)
    case Reconnect => s.(connected := false)
    case BeginShutdown => s.(shuttingDown := true, connecting := false)
    case FinishShutdown => s.(down := true, waiters := [], dropped := s.dropped + s.waiters)
  }

  function Outcomes(ids: seq<nat>, ok: bool): (out: seq<Outcome>)
    ensures |out| == |ids| && forall i :: 0 <= i < |ids| ==> out[i] == Outcome(ids[i], ok)
  {
    seq(|ids|, i requires 0 <= i < |ids| => Outcome(ids[i], ok))
  }

  function Ids(out: seq<Outcome>): (ids: seq<nat>)
    ensures |out| == |ids| && forall i :: 0 <= i < |ids| ==> out[i].id == ids[i]
  {
    seq(|out|, i requires 0 <= i < |out| => out[i].id)
  }

  lemma IdsOfOutcomes(a: seq<Outcome>, ids: seq<nat>, ok: bool)
    ensures Ids(a + Outcomes(ids, ok)) == Ids(a) + ids
  {}

  // ---- What every step keeps

  /** The connector has still to take the waiters. */
  predicate YetToCollect(s: State) {
    s.connector.Opening? || s.connector.Opened? || s.connector.Installing? || s.connector.Collecting?
  }

  function InHand(s: State): seq<nat> {
    if s.script.Checked? then [s.script.id] else []
  }

  function Collected(s: State): seq<nat> {
    if s.connector.Reporting? then s.connector.ids else []
  }

  /** In how many places a connect promise is. */
  function Places(s: State, id: nat): nat {
    Count(InHand(s), id) + Count(s.waiters, id) + Count(Collected(s), id) + Count(Ids(s.notified), id)
    + Count(s.dropped, id)
  }

  /** Every connect promise is in exactly one place. */
  ghost predicate Conserved(s: State) {
    Distinct(s.made) && forall id :: Places(s, id) == Count(s.made, id)
  }

  /** While running, the flag says whether an attempt is under way that will take the waiters. */
  predicate Guarded(s: State) {
    && (!s.shuttingDown ==> (s.connecting <==> YetToCollect(s) || s.script == Starting))
    && (!s.shuttingDown && s.waiters != [] ==> s.connecting)
    && (s.script == Starting ==> !YetToCollect(s))
    && (s.shuttingDown ==> s.script == Idle)
    && (!s.shuttingDown ==> s.dropped == [])
    && (s.down ==> s.shuttingDown && s.connector == Absent && s.waiters == [])
  }

  /** Each waiter waits for the attempt under way, and is told the outcome of that attempt. */
  predicate Matched(s: State) {
    && (forall id :: id in s.waiters ==> id in s.joined && s.joined[id] == |s.attempts|)
    && (forall id :: id in Collected(s) ==>
          && id in s.joined && s.joined[id] < |s.attempts|
          && s.attempts[s.joined[id]] == s.connector.ok)
    && (forall o :: o in s.notified ==>
          if o.id in s.joined then s.joined[o.id] < |s.attempts| && s.attempts[s.joined[o.id]] == o.ok else o.ok)
    && (forall id :: id in s.joined ==> id in s.made)
    && (forall id :: id in InHand(s) ==> id !in s.joined)
  }

  ghost predicate Inv(s: State) {
    Conserved(s) && Guarded(s) && Matched(s)
  }

  lemma EnterMoves(s: State, id: nat)
    requires Enabled(s, Enter)
    ensures Places(Apply(s, Enter), id) == Places(s, id)
  {
    CountAppend(s.waiters, [s.script.id], id);
    IdsOfOutcomes(s.notified, [s.script.id], true);
    assert Outcomes([s.script.id], true) == [Outcome(s.script.id, true)];
    CountAppend(Ids(s.notified), [s.script.id], id);
  }

  lemma ReportMoves(s: State, id: nat)
    requires Enabled(s, Report)
    ensures Places(Apply(s, Report), id) == Places(s, id)
  {
    IdsOfOutcomes(s.notified, s.connector.ids, s.connector.ok);
    CountAppend(Ids(s.notified), s.connector.ids, id);
  }

  lemma FinishMoves(s: State, id: nat)
    requires Enabled(s, FinishShutdown)
    ensures Places(Apply(s, FinishShutdown), id) == Places(s, id)
  {
    CountAppend(s.dropped, s.waiters, id);
  }

  lemma BeginMoves(s: State, added: nat, id: nat)
    requires Enabled(s, Begin(added))
    ensures Places(Apply(s, Begin(added)), id) == Places(s, id) + (if id == added then 1 else 0)
  {}

  lemma CollectMoves(s: State, id: nat)
    requires Enabled(s, Collect)
    ensures Places(Apply(s, Collect), id) == Places(s, id)
  {}

  predicate Moves(step: Step) {
    step.Enter? || step.Report? || step.FinishShutdown? || step.Begin? || step.Collect?
  }

  lemma OthersLeaveParts(s: State, step: Step)
    requires Enabled(s, step) && !Moves(step)
    ensures var t := Apply(s, step);
      && InHand(t) == InHand(s) && Collected(t) == Collected(s)
      && t.waiters == s.waiters && t.notified == s.notified && t.dropped == s.dropped
  {}

  lemma OthersLeave(s: State, step: Step, id: nat)
    requires Enabled(s, step) && !Moves(step)
    ensures Places(Apply(s, step), id) == Places(s, id)
  {
    OthersLeaveParts(s, step);
  }

  /** A step moves promises between places; only a new call adds one. */
  lemma StepKeepsPlaces(s: State, step: Step, id: nat)
    requires Enabled(s, step)
    ensures Places(Apply(s, step), id) == Places(s, id) + (if step == Begin(id) then 1 else 0)
  {
    match step
    case Enter => EnterMoves(s, id);
    case Report => ReportMoves(s, id);
    case FinishShutdown => FinishMoves(s, id);
    case Begin(added) => BeginMoves(s, added, id);
    case Collect => CollectMoves(s, id);
    case _ => OthersLeave(s, step, id);
  }

  lemma MadeGrows(s: State, step: Step, id: nat)
    requires Enabled(s, step)
    ensures Count(Apply(s, step).made, id) == Count(s.made, id) + (if step == Begin(id) then 1 else 0)
  {
    if step.Begin? { CountAppend(s.made, [step.id], id); }
  }

  lemma StepKeepsConserved(s: State, step: Step)
    requires Inv(s) && Enabled(s, step)
    ensures Conserved(Apply(s, step))
  {
    var t := Apply(s, step);
    forall id ensures Places(t, id) == Count(t.made, id) {
      StepKeepsPlaces(s, step, id);
      MadeGrows(s, step, id);
      assert Places(s, id) == Count(s.made, id);
    }
    assert Distinct(t.made);
  }

  lemma StepKeepsGuarded(s: State, step: Step)
    requires Inv(s) && Enabled(s, step)
    ensures Guarded(Apply(s, step))
  {}

  lemma InMade(s: State, id: nat)
    requires Conserved(s)
    requires id in InHand(s) || id in s.waiters || id in Collected(s) || id in Ids(s.notified)
    ensures id in s.made
    ensures id in InHand(s) ==> id !in Ids(s.notified) && id !in s.waiters
  {
    assert Places(s, id) == Count(s.made, id);
    CountOnce(s.made, id);
  }

  lemma StepKeepsMatched(s: State, step: Step)
    requires Inv(s) && Enabled(s, step)
    ensures Matched(Apply(s, step))
  {
    match step
    case Begin(id) => BeginKeepsMatched(s, id);
    case Enter => EnterKeepsMatched(s);
    case Collect => CollectKeepsMatched(s);
    case Report => ReportKeepsMatched(s);
    case _ => SameMatched(s, Apply(s, step));
  }

  /** Steps that move no promise, or forget the waiters. */
  lemma SameMatched(s: State, t: State)
    requires Matched(s) && (t.waiters == s.waiters || t.waiters == []) && InHand(t) == InHand(s)
    requires t.joined == s.joined && t.attempts == s.attempts && t.notified == s.notified && t.made == s.made
    requires t.connector.Reporting? ==> t.connector == s.connector
    ensures Matched(t)
  {}

  lemma BeginKeepsMatched(s: State, id: nat)
    requires Matched(s) && Enabled(s, Begin(id))
    ensures Matched(Apply(s, Begin(id)))
  {}

  lemma CollectKeepsMatched(s: State)
    requires Matched(s) && Enabled(s, Collect)
    ensures Matched(Apply(s, Collect))
  {}

  lemma ReportKeepsMatched(s: State)
    requires Inv(s) && Enabled(s, Report)
    ensures Matched(Apply(s, Report))
  {
    var t := Apply(s, Report);
    forall o | o in t.notified
      ensures if o.id in t.joined then t.joined[o.id] < |t.attempts| && t.attempts[t.joined[o.id]] == o.ok else o.ok
    {
      if o !in s.notified {
        assert o in Outcomes(s.connector.ids, s.connector.ok);
        assert o.id in Collected(s);
      }
    }
  }

  lemma EnterKeepsMatched(s: State)
    requires Inv(s) && Enabled(s, Enter)
    ensures Matched(Apply(s, Enter))
  {
    var id := s.script.id;
    var t := Apply(s, Enter);
    InMade(s, id);
    forall o | o in s.notified ensures o.id != id {
      var i :| 0 <= i < |s.notified| && s.notified[i] == o;
      assert Ids(s.notified)[i] == o.id;
    }
    forall w | w in Collected(s) ensures w != id {
      assert w in s.joined;
    }
  }

  lemma StepKeepsInv(s: State, step: Step)
    requires Inv(s) && Enabled(s, step)
    ensures Inv(Apply(s, step))
  {
    StepKeepsConserved(s, step);
    StepKeepsGuarded(s, step);
    StepKeepsMatched(s, step);
  }

  // ---- Whole runs

  predicate Feasible(s: State, steps: seq<Step>)
    decreases |steps|
  {
    steps == [] || (Enabled(s, steps[0]) && Feasible(Apply(s, steps[0]), steps[1..]))
  }

  function Exec(s: State, steps: seq<Step>): State
    requires Feasible(s, steps)
    decreases |steps|
  {
    if steps == [] then s else Exec(Apply(s, steps[0]), steps[1..])
  }

  ghost predicate Reachable(s: State) {
    exists steps :: Feasible(START, steps) && Exec(START, steps) == s
  }

  lemma {:induction false} RunKeepsInv(s: State, steps: seq<Step>)
    requires Inv(s) && Feasible(s, steps)
    ensures Inv(Exec(s, steps))
    decreases |steps|
  {
    if steps != [] {
      StepKeepsInv(s, steps[0]);
      RunKeepsInv(Apply(s, steps[0]), steps[1..]);
    }
  }

  lemma ReachableInv(s: State)
    requires Reachable(s)
    ensures Inv(s)
  {
    var steps :| Feasible(START, steps) && Exec(START, steps) == s;
    RunKeepsInv(START, steps);
  }

  /** No lost wake-up: while there are waiters, a connector that will take them runs or is about to. */
  lemma NoLostWakeUp(s: State)
    requires Reachable(s) && !s.shuttingDown && s.waiters != []
    ensures YetToCollect(s) || s.script == Starting
  {
    ReachableInv(s);
  }

  /** No promise is told twice, and a waiter is told the outcome of the attempt it joined. */
  lemma ToldAtMostOnce(s: State, id: nat)
    requires Reachable(s)
    ensures Count(Ids(s.notified), id) <= 1
    ensures id in Ids(s.notified) ==> id in s.made && id !in s.waiters && id !in Collected(s)
    ensures forall o :: o in s.notified && o.id in s.joined ==>
              s.joined[o.id] < |s.attempts| && o.ok == s.attempts[s.joined[o.id]]
  {
    ReachableInv(s);
    assert Places(s, id) == Count(s.made, id);
    CountOnce(s.made, id);
    if id in Ids(s.notified) { InMade(s, id); }
  }

  /** A step of a connect call or of the connector, as opposed to a new call or an outside event. */
  predicate Internal(step: Step) {
    step.Enter? || step.Start? || step.Open? || step.Check? || step.Install? || step.Collect? || step.Report?
  }

  /** How many internal steps can follow before something new happens. */
  function Left(s: State): nat {
    (match s.script case Checked(_) => 9 case Starting => 7 case Idle => 0) +
    match s.connector
    case Absent => 0
    case Opening => 6
    case Opened(_) => 5
    case Installing => 4
    case Collecting(_) => 3
    case Reporting(_, _) => 2
  }

  lemma InternalStepsEnd(s: State, step: Step)
    requires Enabled(s, step) && Internal(step)
    ensures Left(Apply(s, step)) < Left(s)
  {}

  /**
   Every connect promise is told its outcome exactly once: until it is, an internal step is
   enabled, and by `InternalStepsEnd` only finitely many of them follow one another.
   */
  lemma EveryPromiseIsTold(s: State, id: nat)
    requires Reachable(s) && !s.shuttingDown
    requires forall step :: Internal(step) ==> !Enabled(s, step)
    ensures Count(Ids(s.notified), id) == if id in s.made then 1 else 0
  {
    ReachableInv(s);
    assert !Enabled(s, Enter) && !Enabled(s, Start) && !Enabled(s, Open(true));
    assert !Enabled(s, Check) && !Enabled(s, Install) && !Enabled(s, Collect) && !Enabled(s, Report);
    assert s.connector == Absent && s.script == Idle;
    assert Places(s, id) == Count(s.made, id);
    CountOnce(s.made, id);
  }

  /** At the end of shutdown each promise was told once or forgotten once, and the connector is gone. */
  lemma ShutdownForgetsTheRest(s: State, id: nat)
    requires Reachable(s) && s.down
    ensures Count(Ids(s.notified), id) + Count(s.dropped, id) == if id in s.made then 1 else 0
    ensures s.connector == Absent && s.waiters == []
  {
    ReachableInv(s);
    assert Places(s, id) == Count(s.made, id);
    CountOnce(s.made, id);
  }

  // ---- The code of the two critical sections and of the reporting loop

  class Connecting {
    var connected: bool
    var connecting: bool
    var waiters: seq<nat>
    var replies: seq<Outcome>
    ghost var model: State

    ghost predicate Valid()
      reads this
    {
      && model.connected == connected && model.connecting == connecting
      && model.waiters == waiters && model.notified == replies
    }

    /** Registration of a connect promise; `start` tells the caller to start the connector. */
    method Join(id: nat) returns (start: bool)
      requires Valid() && model.script == Checked(id)
      modifies this
      ensures Valid() && model == Apply(old(model), Enter)
      ensures start <==> model.script == Starting
      ensures connected ==> replies == old(replies) + [Outcome(id, true)] && waiters == old(waiters)
      ensures !connected ==> replies == old(replies) && waiters == old(waiters) + [id] && connecting
    {
      model := Apply(model, Enter);
      if connected {
        replies := replies + [Outcome(id, true)];
        return false;
      }
      waiters := waiters + [id];
      start := !connecting;
      connecting := true;
    }

    method TakeWaiters(ok: bool) returns (ids: seq<nat>)
      requires Valid() && model.connector == Connector.Collecting(ok)
      modifies this
      ensures Valid() && model == Apply(old(model), Collect)
      ensures ids == old(waiters) && waiters == [] && !connecting && replies == old(replies)
    {
      ids, waiters := waiters, [];
      connecting := false;
      model := Apply(model, Collect);
    }

    method TellWaiters(ids: seq<nat>, ok: bool)
      requires Valid() && model.connector == Reporting(ids, ok)
      modifies this
      ensures Valid() && model == Apply(old(model), Report)
      ensures replies == old(replies) + Outcomes(ids, ok) && waiters == old(waiters)
    {
      for i := 0 to |ids|
        invariant replies == old(replies) + Outcomes(ids[..i], ok)
        invariant model == old(model) && waiters == old(waiters)
        invariant connected == old(connected) && connecting == old(connecting)
      {
        assert Outcomes(ids[..i + 1], ok) == Outcomes(ids[..i], ok) + [Outcome(ids[i], ok)];
        replies := replies + [Outcome(ids[i], ok)];
      }
      assert ids[..|ids|] == ids;
      model := Apply(model, Report);
    }
  }
}
