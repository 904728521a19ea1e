/**
 Exported objects: method calls that the pump retains, the invocations that handlers have still
 to complete, and the references to messages that both own.
 */
module DbusService {
  import opened Listing
  import opened Text

  datatype Request = Request(path: string, iface: string, noReply: bool)

  datatype Why =
    | Replied | Errored | HandlerFailed | Unexported | UnknownMethod | UnknownObject  // with an answer
    | Dropped                                                                         // without

  /** The release of a message: what ended the call and whether an answer was sent. */
  datatype Release = Release(msg: nat, why: Why, sent: bool)

  datatype Call = Call(id: nat, msg: nat)

  datatype State = State(
    methods: seq<nat>,             // retained by the pump
    batch: seq<nat>,               // taken by the update in progress
    updating: bool,
    handling: Option<Call>,        // the call whose handler is running
    invocations: map<nat, nat>,    // invocation id to message
    nextInvocation: nat,
    exports: set<string>,
    connected: bool,
    down: bool,
    // History, which no code reads.
    received: map<nat, Request>,
    released: seq<Release>)

  const START := State([], [], false, None, map[], 1, {}, false, false, map[], [])

  function ServiceKey(path: string, iface: string): string {
    path + "\n" + iface
  }

  /** Some key starts with the path and a line feed. */
  ghost predicate KnownPath(exports: set<string>, path: string) {
    exists key :: key in exports && StartsWith(key, path + "\n")
  }

  datatype Step =
    | Arrive(msg: nat, request: Request)
    | Swap
    | Take
    | Return(threw: bool)
    | Finish
    | Complete(id: nat, error: bool, accepted: bool)  // `reply` or `error` of an invocation
    | Export(path: string, iface: string)
    | Unexport(path: string, iface: string, order: seq<nat>)
    | Connect
    | Reconnect(order: seq<nat>)
    | Shutdown(order: seq<nat>)

  /** Scripts run between updates and inside handlers. */
  ghost predicate ScriptRuns(s: State) {
    !s.down && (!s.updating || s.handling.Some?)
  }

  function KeyOf(s: State, msg: nat): string
    requires msg in s.received
  {
    ServiceKey(s.received[msg].path, s.received[msg].iface)
  }

  /** The invocations of one object interface. */
  function IdsFor(s: State, key: string): set<nat> {
    set id | id in s.invocations && s.invocations[id] in s.received && KeyOf(s, s.invocations[id]) == key
  }

  ghost predicate Enabled(s: State, step: Step) {
    match step
    case Arrive(msg, _) => s.connected && !s.down && msg !in s.received
    case Swap => !s.down && !s.updating
    case Take => s.updating && s.handling == None && s.batch != [] && s.batch[0] in s.received
    case Return(_) => s.handling.Some? && s.handling.value.msg in s.received
    case Finish => s.updating && s.handling == None && s.batch == []
    case Complete(id, _, _) => ScriptRuns(s) && (id in s.invocations ==> s.invocations[id] in s.received)
    case Export(_, _) => ScriptRuns(s) && s.connected
    case Unexport(path, iface, order) => ScriptRuns(s) && Enumerates(order, IdsFor(s, ServiceKey(path, iface)))
    case Connect => !s.down
    case Reconnect(order) => ScriptRuns(s) && s.connected && Enumerates(order, s.invocations.Keys)
    case Shutdown(order) => !s.down && !s.updating && Enumerates(order, s.invocations.Keys)
  }

  /** An answer is sent if the caller wants one and there is a connection. */
  function Answer(s: State, msg: nat, why: Why): Release
    requires msg in s.received
  {
    Release(msg, why, !s.received[msg].noReply && s.connected)
  }

  function Answers(s: State, msgs: seq<nat>, why: Why): seq<Release>
    requires forall i :: 0 <= i < |msgs| ==> msgs[i] in s.received
  {
    seq(|msgs|, i requires 0 <= i < |msgs| => Answer(s, msgs[i], why))
  }

  function Drops(msgs: seq<nat>): seq<Release> {
    seq(|msgs|, i requires 0 <= i < |msgs| => Release(msgs[i], Dropped, false))
  }

  function Messages(order: seq<nat>, invocations: map<nat, nat>): seq<nat>
    requires forall i :: 0 <= i < |order| ==> order[i] in invocations
  {
    seq(|order|, i requires 0 <= i < |order| => invocations[order[i]])
  }

  ghost function Apply(s: State, step: Step): State
    requires Enabled(s, step)
  {
    match step
    case Arrive(msg, request) => s.(methods := s.methods + [msg], received := s.received[msg := request])
    case Swap => s.(updating := true, batch := s.methods, methods := [])
    case Take =>
      var m := s.batch[0];
      var t := s.(batch := s.batch[1..]);
      if KeyOf(s, m) in s.exports then
        t.(nextInvocation := s.nextInvocation + 1, invocations := s.invocations[s.nextInvocation := m],
           handling := Some(Call(s.nextInvocation, m)))
      else
        var why := if KnownPath(s.exports, s.received[m].path) then UnknownMethod else UnknownObject;
        t.(released := s.released + [Answer(s, m, why)])
    case Return(threw) =>
      var call := s.handling.value;
      var t := s.(handling := None);
      if threw && call.id in s.invocations then
        t.(invocations := s.invocations - {call.id}, released := s.released + [Answer(s, call.msg, HandlerFailed)])
      else t
    case Finish => s.(updating := false)
    case Complete(id, error, accepted) =>
      if id in s.invocations && accepted then
        s.(invocations := s.invocations - {id},
           released := s.released + [Answer(s, s.invocations[id], if error then Errored else Replied)])
      else s
    case Export(path, iface) => s.(exports := s.exports + {ServiceKey(path, iface)})
    case Unexport(path, iface, order) =>
      var key := ServiceKey(path, iface);
      if key !in s.exports then s
      else
        s.(exports := s.exports - {key}, invocations := s.invocations - IdsFor(s, key),
           released := s.released + Answers(s, Messages(order, s.invocations), Unexported))
    case Connect => s.(connected := true)
    case Reconnect(order) =>
      s.(connected := false, invocations := map[], methods := [],
         released := s.released + Drops(Messages(order, s.invocations)) + Drops(s.methods))
    case Shutdown(order) =>
      s.(down := true, connected := false, exports := {}, invocations := map[], methods := [],
         released := s.released + Drops(Messages(order, s.invocations)) + Drops(s.methods))
  }

  // ---- What every step keeps

  function Gone(released: seq<Release>): (msgs: seq<nat>)
    ensures |msgs| == |released| && forall i :: 0 <= i < |msgs| ==> msgs[i] == released[i].msg
  {
    seq(|released|, i requires 0 <= i < |released| => released[i].msg)
  }

  ghost predicate Injective(m: map<nat, nat>) {
    forall a, b :: a in m && b in m && m[a] == m[b] ==> a == b
  }

  /** A message is owned where a reference to it is kept. */
  ghost predicate Owned(s: State, msg: nat) {
    msg in s.methods || msg in s.batch || Invoked(s.invocations, msg)
  }

  ghost predicate Invoked(invocations: map<nat, nat>, msg: nat) {
    exists id :: id in invocations && invocations[id] == msg
  }

  /** No place holds a message twice. */
  ghost predicate NoDuplicates(s: State) {
    Distinct(s.methods) && Distinct(s.batch) && Injective(s.invocations) && Distinct(Gone(s.released))
  }

  /** No two places hold the same message, and none holds a released one. */
  ghost predicate Disjoint(s: State) {
    && (forall m :: m in s.methods ==> m !in s.batch && !Invoked(s.invocations, m))
    && (forall m :: m in s.batch ==> !Invoked(s.invocations, m))
    && (forall m :: m in Gone(s.released) ==> !Owned(s, m))
  }

  /** Exactly the received messages are owned or released. */
  ghost predicate Accounted(s: State) {
    forall m :: m in s.received <==> Owned(s, m) || m in Gone(s.released)
  }

  ghost predicate Ordered(s: State) {
    && (forall id :: id in s.invocations ==> id < s.nextInvocation)
    && (!s.updating ==> s.batch == [] && s.handling == None)
    && (s.handling.Some? ==>
          && s.handling.value.id < s.nextInvocation && s.handling.value.msg in s.received
          && (s.handling.value.id in s.invocations ==> s.invocations[s.handling.value.id] == s.handling.value.msg))
    && (s.down ==> !s.updating && s.methods == [] && s.invocations == map[])
  }

  /** Only a call that wants an answer gets one. */
  predicate Justified(s: State, r: Release) {
    r.msg in s.received && (r.sent ==> !s.received[r.msg].noReply && r.why != Dropped)
  }

  ghost predicate Wanted(s: State) {
    forall r :: r in s.released ==> Justified(s, r)
  }

  ghost predicate Inv(s: State) {
    NoDuplicates(s) && Disjoint(s) && Accounted(s) && Ordered(s) && Wanted(s)
  }

  // ---- Moves of messages

  ghost predicate AllReceived(s: State) {
    forall id :: id in s.invocations ==> s.invocations[id] in s.received
  }

  lemma InvokedReceived(s: State)
    requires Inv(s)
    ensures AllReceived(s)
  {
    forall id | id in s.invocations ensures s.invocations[id] in s.received {
      assert Invoked(s.invocations, s.invocations[id]);
      assert Owned(s, s.invocations[id]);
    }
  }

  lemma GoneMore(released: seq<Release>, r: Release)
    ensures Gone(released + [r]) == Gone(released) + [r.msg]
  {}

  lemma ReleaseOne(s: State, r: Release)
    requires Distinct(Gone(s.released)) && r.msg !in Gone(s.released)
    ensures Distinct(Gone(s.released + [r]))
    ensures forall m :: m in Gone(s.released + [r]) <==> m in Gone(s.released) || m == r.msg
  {
    GoneMore(s.released, r);
  }

  lemma InvokedAfterAdd(invocations: map<nat, nat>, id: nat, msg: nat)
    requires id !in invocations && Injective(invocations) && !Invoked(invocations, msg)
    ensures Injective(invocations[id := msg])
    ensures forall m :: Invoked(invocations[id := msg], m) <==> Invoked(invocations, m) || m == msg
  {
    var after := invocations[id := msg];
    forall m ensures Invoked(after, m) <==> Invoked(invocations, m) || m == msg {
      if Invoked(invocations, m) {
        var x :| x in invocations && invocations[x] == m;
        assert after[x] == m;
      }
      assert after[id] == msg;
    }
    forall a, b | a in after && b in after && after[a] == after[b] ensures a == b {
      assert a != id ==> Invoked(invocations, after[a]);
      assert b != id ==> Invoked(invocations, after[b]);
    }
  }

  lemma InvokedAfterDrop(invocations: map<nat, nat>, ids: set<nat>, m: nat)
    requires Injective(invocations)
    ensures Injective(invocations - ids)
    ensures Invoked(invocations - ids, m) <==> Invoked(invocations, m) && !DroppedBy(invocations, ids, m)
  {
    if Invoked(invocations, m) {
      var id :| id in invocations && invocations[id] == m;
      if id !in ids { assert (invocations - ids)[id] == m; }
    }
  }

  ghost predicate DroppedBy(invocations: map<nat, nat>, ids: set<nat>, m: nat) {
    exists id :: id in ids && id in invocations && invocations[id] == m
  }

  lemma MessagesListed(order: seq<nat>, invocations: map<nat, nat>, ids: set<nat>, m: nat)
    requires Enumerates(order, ids) && ids <= invocations.Keys && Injective(invocations)
    ensures Distinct(Messages(order, invocations))
    ensures m in Messages(order, invocations) <==> DroppedBy(invocations, ids, m)
  {
    var msgs := Messages(order, invocations);
    if DroppedBy(invocations, ids, m) {
      var id :| id in ids && id in invocations && invocations[id] == m;
      var i :| 0 <= i < |order| && order[i] == id;
      assert msgs[i] == m;
    }
    if m in msgs {
      var i :| 0 <= i < |msgs| && msgs[i] == m;
      assert order[i] in ids;
    }
  }

  lemma DistinctAppend(a: seq<nat>, b: seq<nat>)
    requires Distinct(a) && Distinct(b) && forall m :: m in a ==> m !in b
    ensures Distinct(a + b)
  {
    forall i, j | 0 <= i < j < |a + b| ensures (a + b)[i] != (a + b)[j] {
      if i < |a| <= j {
        assert a[i] in a && b[j - |a|] in b;
      }
    }
  }

  lemma ReleaseMany(released: seq<Release>, more: seq<Release>)
    requires Distinct(Gone(released)) && Distinct(Gone(more))
    requires forall m :: m in Gone(released) ==> m !in Gone(more)
    ensures Distinct(Gone(released + more))
    ensures forall m :: m in Gone(released + more) <==> m in Gone(released) || m in Gone(more)
  {
    assert Gone(released + more) == Gone(released) + Gone(more);
    DistinctAppend(Gone(released), Gone(more));
  }

  // ---- Steps that release nothing or one message

  lemma ArriveKeeps(s: State, msg: nat, request: Request)
    requires Inv(s) && Enabled(s, Arrive(msg, request))
    ensures Inv(Apply(s, Arrive(msg, request)))
  {
    assert !Owned(s, msg) && msg !in Gone(s.released);
    var t := Apply(s, Arrive(msg, request));
    assert forall m :: Owned(t, m) <==> Owned(s, m) || m == msg;
  }

  lemma SwapKeeps(s: State)
    requires Inv(s) && Enabled(s, Swap)
    ensures Inv(Apply(s, Swap))
  {
    var t := Apply(s, Swap);
    assert forall m :: Owned(t, m) <==> Owned(s, m);
  }

  lemma TakeHandled(s: State)
    requires Inv(s) && Enabled(s, Take) && KeyOf(s, s.batch[0]) in s.exports
    ensures Inv(Apply(s, Take))
  {
    var t := Apply(s, Take);
    var m := s.batch[0];
    InvokedAfterAdd(s.invocations, s.nextInvocation, m);
    assert forall x :: x in s.batch <==> x in s.batch[1..] || x == m;
    assert m !in s.batch[1..];
    assert forall x :: Owned(t, x) <==> Owned(s, x);
  }

  lemma TakeRefused(s: State)
    requires Inv(s) && Enabled(s, Take) && KeyOf(s, s.batch[0]) !in s.exports
    ensures Inv(Apply(s, Take))
  {
    var t := Apply(s, Take);
    var m := s.batch[0];
    assert forall x :: x in s.batch <==> x in s.batch[1..] || x == m;
    assert m !in s.batch[1..];
    assert Owned(s, m);
    ReleaseOne(s, t.released[|s.released|]);
    assert forall x :: Owned(t, x) <==> Owned(s, x) && x != m;
  }

  /** An invocation leaves the map with its message released. */
  lemma EndInvocation(s: State, t: State, id: nat, r: Release)
    requires Inv(s) && id in s.invocations && r.msg == s.invocations[id]
    requires r.sent ==> Justified(s, r)
    requires t == s.(invocations := s.invocations - {id}, released := s.released + [r], handling := t.handling)
    requires t.handling == s.handling || t.handling == None
    ensures Inv(t)
  {
    var m := r.msg;
    assert Owned(s, m) by { assert Invoked(s.invocations, m); }
    ReleaseOne(s, r);
    forall x ensures Invoked(t.invocations, x) <==> Invoked(s.invocations, x) && x != m {
      InvokedAfterDrop(s.invocations, {id}, x);
      assert DroppedBy(s.invocations, {id}, x) <==> x == m;
    }
    assert forall x :: Owned(t, x) <==> Owned(s, x) && x != m;
  }

  lemma ReturnKeeps(s: State, threw: bool)
    requires Inv(s) && Enabled(s, Return(threw))
    ensures Inv(Apply(s, Return(threw)))
  {
    var call := s.handling.value;
    var t := Apply(s, Return(threw));
    if threw && call.id in s.invocations {
      EndInvocation(s, t, call.id, Answer(s, call.msg, HandlerFailed));
    } else {
      assert forall m :: Owned(t, m) <==> Owned(s, m);
    }
  }

  lemma CompleteKeeps(s: State, id: nat, error: bool, accepted: bool)
    requires Inv(s) && Enabled(s, Complete(id, error, accepted))
    ensures Inv(Apply(s, Complete(id, error, accepted)))
  {
    if id in s.invocations && accepted {
      EndInvocation(s, Apply(s, Complete(id, error, accepted)), id,
                    Answer(s, s.invocations[id], if error then Errored else Replied));
    }
  }

  // ---- Steps that release many

  lemma UnexportKeeps(s: State, path: string, iface: string, order: seq<nat>)
    requires Inv(s) && Enabled(s, Unexport(path, iface, order))
    ensures Inv(Apply(s, Unexport(path, iface, order)))
  {
    var key := ServiceKey(path, iface);
    if key in s.exports {
      var t := Apply(s, Unexport(path, iface, order));
      var ids := IdsFor(s, key);
      var msgs := Messages(order, s.invocations);
      var more := Answers(s, msgs, Unexported);
      assert Gone(more) == msgs;
      forall m ensures m in msgs <==> DroppedBy(s.invocations, ids, m) {
        MessagesListed(order, s.invocations, ids, m);
      }
      MessagesListed(order, s.invocations, ids, 0);
      forall m | m in msgs ensures Invoked(s.invocations, m) {}
      ReleaseMany(s.released, more);
      forall m ensures Invoked(t.invocations, m) <==> Invoked(s.invocations, m) && m !in msgs {
        InvokedAfterDrop(s.invocations, ids, m);
      }
      UnexportAccounts(s, t, msgs, more);
    }
  }

  lemma UnexportAccounts(s: State, t: State, msgs: seq<nat>, more: seq<Release>)
    requires Inv(s) && Gone(more) == msgs
    requires t == s.(exports := t.exports, invocations := t.invocations, released := s.released + more)
    requires t.invocations.Keys <= s.invocations.Keys && Injective(t.invocations)
    requires forall id :: id in t.invocations ==> t.invocations[id] == s.invocations[id]
    requires forall m :: Invoked(t.invocations, m) <==> Invoked(s.invocations, m) && m !in msgs
    requires forall m :: m in msgs ==> Invoked(s.invocations, m)
    requires Distinct(Gone(t.released)) && forall m :: m in Gone(t.released) <==> m in Gone(s.released) || m in msgs
    requires forall r :: r in more ==> Justified(s, r)
    ensures Inv(t)
  {
    assert forall x :: Owned(t, x) <==> Owned(s, x) && x !in msgs;
  }

  lemma DropAll(s: State, order: seq<nat>)
    requires Inv(s) && Enumerates(order, s.invocations.Keys)
    ensures var more := Drops(Messages(order, s.invocations)) + Drops(s.methods);
      && Distinct(Gone(s.released + more))
      && forall m :: m in Gone(s.released + more) <==>
           m in Gone(s.released) || Invoked(s.invocations, m) || m in s.methods
  {
    var msgs := Messages(order, s.invocations);
    var more := Drops(msgs) + Drops(s.methods);
    assert Gone(more) == msgs + s.methods;
    forall m ensures m in msgs <==> Invoked(s.invocations, m) {
      MessagesListed(order, s.invocations, s.invocations.Keys, m);
      assert DroppedBy(s.invocations, s.invocations.Keys, m) <==> Invoked(s.invocations, m);
    }
    MessagesListed(order, s.invocations, s.invocations.Keys, 0);
    DistinctAppend(msgs, s.methods);
    ReleaseMany(s.released, more);
  }

  lemma LosesAll(s: State, t: State, order: seq<nat>)
    requires Inv(s) && Enumerates(order, s.invocations.Keys)
    requires t == s.(invocations := map[], methods := [], connected := t.connected, exports := t.exports,
                     down := t.down,
                     released := s.released + (Drops(Messages(order, s.invocations)) + Drops(s.methods)))
    requires t.down ==> !s.updating
    ensures Inv(t)
  {
    DropAll(s, order);
    assert forall m :: Owned(t, m) <==> m in s.batch;
    forall r | r in t.released ensures Justified(t, r) {
      if r !in s.released {
        var i :| 0 <= i < |t.released| && t.released[i] == r;
        assert Gone(t.released)[i] == r.msg;
      } else {
        assert Justified(s, r);
      }
    }
  }

  lemma ReconnectKeeps(s: State, order: seq<nat>)
    requires Inv(s) && Enabled(s, Reconnect(order))
    ensures Inv(Apply(s, Reconnect(order)))
  {
    AppendAssociates(s.released, Drops(Messages(order, s.invocations)), Drops(s.methods));
    LosesAll(s, Apply(s, Reconnect(order)), order);
  }

  lemma ShutdownKeeps(s: State, order: seq<nat>)
    requires Inv(s) && Enabled(s, Shutdown(order))
    ensures Inv(Apply(s, Shutdown(order)))
  {
    AppendAssociates(s.released, Drops(Messages(order, s.invocations)), Drops(s.methods));
    LosesAll(s, Apply(s, Shutdown(order)), order);
  }

  lemma OthersKeep(s: State, step: Step)
    requires Inv(s) && Enabled(s, step) && (step.Finish? || step.Export? || step.Connect?)
    ensures Inv(Apply(s, step))
  {
    assert forall m :: Owned(Apply(s, step), m) <==> Owned(s, m);
  }

  lemma StepKeepsInv(s: State, step: Step)
    requires Inv(s) && Enabled(s, step)
    ensures Inv(Apply(s, step))
  {
    match step
    case Arrive(msg, request) => ArriveKeeps(s, msg, request);
    case Swap => SwapKeeps(s);
    case Take => if KeyOf(s, s.batch[0]) in s.exports { TakeHandled(s); } else { TakeRefused(s); }
    case Return(threw) => ReturnKeeps(s, threw);
    case Complete(id, error, accepted) => CompleteKeeps(s, id, error, accepted);
    case Unexport(path, iface, order) => UnexportKeeps(s, path, iface, order);
    case Reconnect(order) => ReconnectKeeps(s, order);
    case Shutdown(order) => ShutdownKeeps(s, order);
    case _ => OthersKeep(s, step);
  }

  // ---- Whole runs

  ghost predicate Feasible(s: State, steps: seq<Step>)
    decreases |steps|
  {
    steps == [] || (Enabled(s, steps[0]) && Feasible(Apply(s, steps[0]), steps[1..]))
  }

  ghost function Exec(s: State, steps: seq<Step>): State
    requires Feasible(s, steps)
    decreases |steps|
  {
    if steps == [] then s else Exec(Apply(s, steps[0]), steps[1..])
  }

  ghost predicate Reachable(s: State) {
    exists steps :: Feasible(START, steps) && Exec(START, steps) == s
  }

  lemma {:induction false} RunKeepsInv(s: State, steps: seq<Step>)
    requires Inv(s) && Feasible(s, steps)
    ensures Inv(Exec(s, steps))
    decreases |steps|
  {
    if steps != [] {
      StepKeepsInv(s, steps[0]);
      RunKeepsInv(Apply(s, steps[0]), steps[1..]);
    }
  }

  lemma ReachableInv(s: State)
    requires Reachable(s)
    ensures Inv(s)
  {
    var steps :| Feasible(START, steps) && Exec(START, steps) == s;
    RunKeepsInv(START, steps);
  }

  /**
   In every reachable state a received message is either owned, in one place, or released, once;
   and after shutdown it is released. With the answer being part of the release, no call is
   answered twice, and a call that wants no answer gets none.
   */
  lemma ReleasedOnce(s: State, msg: nat)
    requires Reachable(s)
    ensures Count(Gone(s.released), msg) == if msg in s.received && !Owned(s, msg) then 1 else 0
    ensures (Count(s.methods, msg) + Count(s.batch, msg) + (if Invoked(s.invocations, msg) then 1 else 0)
             == if Owned(s, msg) then 1 else 0)
    ensures s.down ==> !Owned(s, msg)
    ensures forall r :: r in s.released && r.sent ==>
              r.msg in s.received && !s.received[r.msg].noReply && r.why != Dropped
  {
    ReachableInv(s);
    CountOnce(Gone(s.released), msg);
    CountOnce(s.methods, msg);
    CountOnce(s.batch, msg);
  }

  lemma AnsweredAtMostOnce(s: State, i: nat, j: nat)
    requires Reachable(s) && i < |s.released| && j < |s.released|
    requires s.released[i].msg == s.released[j].msg
    ensures i == j
  {
    ReachableInv(s);
    assert Gone(s.released)[i] == Gone(s.released)[j];
  }

  /** A release is never undone, and nothing follows shutdown. */
  lemma {:induction false} ReleasesGrow(s: State, steps: seq<Step>)
    requires Inv(s) && Feasible(s, steps)
    ensures s.released <= Exec(s, steps).released
    ensures s.down ==> steps == []
    decreases |steps|
  {
    if steps != [] {
      StepKeepsInv(s, steps[0]);
      ReleasesGrow(Apply(s, steps[0]), steps[1..]);
      StepReleasesMore(s, steps[0]);
    }
  }

  lemma StepReleasesMore(s: State, step: Step)
    requires Inv(s) && Enabled(s, step)
    ensures s.released <= Apply(s, step).released && !s.down
  {}

  /** Removing an export ends the invocations of that object interface with an error, and no others. */
  lemma UnexportEndsItsCalls(s: State, path: string, iface: string, order: seq<nat>, msg: nat)
    requires Reachable(s) && Enabled(s, Unexport(path, iface, order)) && ServiceKey(path, iface) in s.exports
    requires Invoked(s.invocations, msg) && msg in s.received
    ensures var t := Apply(s, Unexport(path, iface, order));
      if KeyOf(s, msg) == ServiceKey(path, iface)
      then !Owned(t, msg) && Answer(s, msg, Unexported) in t.released
      else Invoked(t.invocations, msg) && msg !in Gone(t.released)
  {
    ReachableInv(s);
    var step := Unexport(path, iface, order);
    var t := Apply(s, step);
    StepKeepsInv(s, step);
    assert Owned(s, msg);
    var id :| id in s.invocations && s.invocations[id] == msg;
    var ids := IdsFor(s, ServiceKey(path, iface));
    if id in ids {
      var i :| 0 <= i < |order| && order[i] == id;
      assert Answers(s, Messages(order, s.invocations), Unexported)[i] == Answer(s, msg, Unexported);
      assert t.released[|s.released| + i] == Answer(s, msg, Unexported);
      assert Gone(t.released)[|s.released| + i] == msg;
    } else {
      assert t.invocations[id] == msg;
    }
  }

  // ---- Keys

  ghost predicate Plain(path: string) {
    '\n' !in path
  }

  /** Paths have no line feed, so a key stands for one object interface. */
  lemma ServiceKeyInjective(path: string, iface: string, path': string, iface': string)
    requires Plain(path) && Plain(path')
    requires ServiceKey(path, iface) == ServiceKey(path', iface')
    ensures path == path' && iface == iface'
  {
    var key := ServiceKey(path, iface);
    assert key[|path|] == '\n' && ServiceKey(path', iface')[|path'|] == '\n';
    assert |path| == |path'|;
    assert path == key[..|path|] && path' == key[..|path'|];
    assert iface == key[|path| + 1..] && iface' == key[|path'| + 1..];
  }

  /** The scan over keys finds a path exactly if an interface of that object is exported. */
  lemma KnownPathMeans(objects: set<(string, string)>, exports: set<string>, path: string)
    requires forall o :: o in objects ==> Plain(o.0)
    requires exports == set o | o in objects :: ServiceKey(o.0, o.1)
    requires Plain(path)
    ensures KnownPath(exports, path) <==> exists iface :: (path, iface) in objects
  {
    if KnownPath(exports, path) {
      var key :| key in exports && StartsWith(key, path + "\n");
      var o :| o in objects && ServiceKey(o.0, o.1) == key;
      assert key == ServiceKey(path, key[|path| + 1..]);
      ServiceKeyInjective(o.0, o.1, path, key[|path| + 1..]);
      assert (path, o.1) in objects;
    }
    if iface :| (path, iface) in objects {
      assert ServiceKey(path, iface) in exports;
      assert StartsWith(ServiceKey(path, iface), path + "\n");
    }
  }

  // ---- The code on the script thread

  /** What an answer from the script does, field by field. */
  lemma CompleteIs(s: State, id: nat, error: bool, accepted: bool)
    requires Inv(s) && ScriptRuns(s)
    ensures Enabled(s, Complete(id, error, accepted)) && Inv(Apply(s, Complete(id, error, accepted)))
    ensures id in s.invocations ==> s.invocations[id] in s.received
    ensures var t := Apply(s, Complete(id, error, accepted));
      if id in s.invocations && accepted then
        t == s.(invocations := s.invocations - {id},
                released := s.released + [Answer(s, s.invocations[id], if error then Errored else Replied)])
      else t == s
  {
    InvokedReceived(s);
    StepKeepsInv(s, Complete(id, error, accepted));
  }

  class Service {
    var methods: seq<nat>
    var invocations: map<nat, nat>
    var nextInvocation: nat
    var exports: set<string>
    var connected: bool
    var requests: map<nat, Request>  // what the messages say
    var released: seq<Release>       // answers and releases, in order
    ghost var model: State

    ghost predicate Valid()
      reads this
    {
      && model.methods == methods && model.invocations == invocations && model.nextInvocation == nextInvocation
      && model.exports == exports && model.connected == connected && model.received == requests
      && model.released == released && Inv(model)
    }

    /** Ends a call with an answer, if there is someone to answer. */
    method SendReply(msg: nat, why: Why)
      requires msg in requests
      modifies this`released
      ensures (released == old(released)
               + [Release(msg, why, !requests[msg].noReply && connected)])
    {
      released := released + [Release(msg, why, !requests[msg].noReply && connected)];
    }

    /** `reply` and `error` of an invocation; false is the exception thrown to the script. */
    method FinishInvocation(id: nat, error: bool, accepted: bool) returns (done: bool)
      requires Valid() && ScriptRuns(model)
      modifies this`invocations, this`released, this`model
      ensures Valid() && model == Apply(old(model), Complete(id, error, accepted))
      ensures done <==> id in old(invocations) && accepted
      ensures !done ==> invocations == old(invocations) && released == old(released)
    {
      CompleteIs(model, id, error, accepted);
      model := Apply(model, Complete(id, error, accepted));
      if id !in invocations || !accepted {
        return false;
      }
      var request := invocations[id];
      SendReply(request, if error then Errored else Replied);
      invocations := invocations - {id};
      done := true;
    }

    /** What the loops read agrees with the state `s` of the model. */
    ghost predicate Sees(s: State)
      reads this
    {
      AllReceived(s) && s.invocations == invocations && s.received == requests && s.connected == connected
    }

    /** One turn of the loop of `unexportObject`; `key` is the object interface that goes. */
    method EndIfOf(key: string, id: nat, ghost s: State) returns (ended: bool)
      requires AllReceived(s) && s.received == requests && s.connected == connected
      requires id in invocations && id in s.invocations && invocations[id] == s.invocations[id]
      modifies this`invocations, this`released
      ensures ended <==> id in IdsFor(s, key)
      ensures !ended ==> invocations == old(invocations) && released == old(released)
      ensures ended ==> invocations == old(invocations) - {id} && s.invocations[id] in s.received
      ensures ended ==> released == old(released) + [Answer(s, s.invocations[id], Unexported)]
    {
      var request := invocations[id];
      ended := ServiceKey(requests[request].path, requests[request].iface) == key;
      if ended {
        SendReply(request, Unexported);
        invocations := invocations - {id};
      }
    }

    /** The answers to the invocations ended so far. */
    ghost function EndedBy(s: State, order: seq<nat>): seq<Release>
      requires AllReceived(s) && forall i :: 0 <= i < |order| ==> order[i] in s.invocations
    {
      Answers(s, Messages(order, s.invocations), Unexported)
    }

    /** What the loop of `unexportObject` has done when `todo` is left to visit. */
    ghost predicate Progress(s: State, ids: set<nat>, order: seq<nat>, todo: set<nat>, before: seq<Release>)
      requires AllReceived(s) && ids <= s.invocations.Keys
      reads this
    {
      && todo <= s.invocations.Keys && Enumerates(order, ids - todo)
      && invocations == s.invocations - (ids - todo)
      && released == before + EndedBy(s, order)
    }

    method EndNext(key: string, id: nat, ghost s: State, ghost order: seq<nat>, ghost todo: set<nat>,
                   ghost before: seq<Release>) returns (ghost order': seq<nat>)
      requires AllReceived(s) && s.received == requests && s.connected == connected && id in todo
      requires Progress(s, IdsFor(s, key), order, todo, before)
      modifies this`invocations, this`released
      ensures Progress(s, IdsFor(s, key), order', todo - {id}, before)
    {
      EndTurn(s, IdsFor(s, key), order, todo, id);
      var ended := EndIfOf(key, id, s);
      order' := order;
      if ended {
        AppendAssociates(before, EndedBy(s, order), [Answer(s, s.invocations[id], Unexported)]);
        order' := order + [id];
      }
    }

    /** The loop of `unexportObject` over the invocations of the object interface. */
    method EndInvocationsOf(key: string, ghost s: State) returns (ghost order: seq<nat>)
      requires Sees(s)
      modifies this`invocations, this`released
      ensures Enumerates(order, IdsFor(s, key))
      ensures invocations == s.invocations - IdsFor(s, key)
      ensures released == old(released) + EndedBy(s, order)
    {
      order := [];
      var todo := invocations.Keys;
      AllToDo(s, IdsFor(s, key));
      while todo != {}
        invariant Progress(s, IdsFor(s, key), order, todo, old(released))
        decreases |todo|
      {
        var id :| id in todo;
        order := EndNext(key, id, s, order, todo, old(released));
        todo := todo - {id};
      }
      NoneToDo(s, IdsFor(s, key), order, old(released));
    }

    lemma AllToDo(s: State, ids: set<nat>)
      requires AllReceived(s) && s.invocations == invocations && ids <= s.invocations.Keys
      ensures Progress(s, ids, [], invocations.Keys, released)
    {
      assert ids - invocations.Keys == {};
    }

    lemma NoneToDo(s: State, ids: set<nat>, order: seq<nat>, before: seq<Release>)
      requires AllReceived(s) && ids <= s.invocations.Keys
      requires Progress(s, ids, order, {}, before)
      ensures Enumerates(order, ids) && invocations == s.invocations - ids
      ensures released == before + EndedBy(s, order)
    {
      assert ids - {} == ids;
    }

    lemma EndTurn(s: State, ids: set<nat>, order: seq<nat>, todo: set<nat>, id: nat)
      requires AllReceived(s) && ids <= s.invocations.Keys && todo <= s.invocations.Keys
      requires id in todo && Enumerates(order, ids - todo)
      ensures id in s.invocations - (ids - todo)
      ensures id !in ids ==> ids - (todo - {id}) == ids - todo
      ensures id in ids ==>
        && Enumerates(order + [id], ids - (todo - {id}))
        && s.invocations - (ids - todo) - {id} == s.invocations - (ids - (todo - {id}))
        && EndedBy(s, order + [id]) == EndedBy(s, order) + [Answer(s, s.invocations[id], Unexported)]
    {
      if id in ids {
        ListOneMore(order, ids, todo, id);
      }
    }

    method UnexportObject(path: string, iface: string) returns (ghost order: seq<nat>)
      requires Valid() && ScriptRuns(model)
      modifies this`exports, this`invocations, this`released, this`model
      ensures Valid() && Enabled(old(model), Unexport(path, iface, order))
      ensures model == Apply(old(model), Unexport(path, iface, order))
    {
      var key := ServiceKey(path, iface);
      if key !in exports {
        order := ListIds(IdsFor(model, key));
      } else {
        InvokedReceived(model);
        exports := exports - {key};
        order := EndInvocationsOf(key, model);
      }
      StepKeepsInv(model, Unexport(path, iface, order));
      model := Apply(model, Unexport(path, iface, order));
    }

    ghost method ListIds(ids: set<nat>) returns (order: seq<nat>)
      ensures Enumerates(order, ids)
    {
      order := [];
      var todo := ids;
      while todo != {}
        invariant todo <= ids && Enumerates(order, ids - todo)
        decreases |todo|
      {
        var id :| id in todo;
        ListOneMore(order, ids, todo, id);
        order := order + [id];
        todo := todo - {id};
      }
      assert ids - {} == ids;
    }

    /** Releases every message of the map without an answer. */
    method ReleaseInvocations() returns (ghost order: seq<nat>)
      modifies this`invocations, this`released
      ensures Enumerates(order, old(invocations).Keys) && invocations == map[]
      ensures released == old(released) + Drops(Messages(order, old(invocations)))
    {
      order := [];
      var todo := invocations.Keys;
      while todo != {}
        invariant todo <= invocations.Keys && invocations == old(invocations)
        invariant Enumerates(order, invocations.Keys - todo)
        invariant released == old(released) + Drops(Messages(order, invocations))
        decreases |todo|
      {
        var id :| id in todo;
        ListOneMore(order, invocations.Keys, todo, id);
        DropsMore(order, invocations, id);
        AppendAssociates(old(released), Drops(Messages(order, invocations)),
                         [Release(invocations[id], Dropped, false)]);
        released := released + [Release(invocations[id], Dropped, false)];
        order := order + [id];
        todo := todo - {id};
      }
      assert invocations.Keys - {} == invocations.Keys;
      invocations := map[];
    }

    lemma DropsMore(order: seq<nat>, invocations: map<nat, nat>, id: nat)
      requires id in invocations && forall i :: 0 <= i < |order| ==> order[i] in invocations
      ensures (Drops(Messages(order + [id], invocations))
               == Drops(Messages(order, invocations)) + [Release(invocations[id], Dropped, false)])
    {}

    /** Releases every message of the queue without an answer. */
    method ReleaseMethods()
      modifies this`methods, this`released
      ensures methods == [] && released == old(released) + Drops(old(methods))
    {
      ghost var taken := [];
      while methods != []
        invariant old(methods) == taken + methods && released == old(released) + Drops(taken)
        decreases |methods|
      {
        var gone := Release(methods[0], Dropped, false);
        AppendAssociates(old(released), Drops(taken), [gone]);
        assert Drops(taken + [methods[0]]) == Drops(taken) + [gone];
        AppendAssociates(taken, [methods[0]], methods[1..]);
        taken := taken + [methods[0]];
        released := released + [gone];
        methods := methods[1..];
      }
      assert taken == old(methods);
    }

    /** The part of reconnecting that concerns incoming calls. */
    method LoseConnection() returns (ghost order: seq<nat>)
      requires Valid() && ScriptRuns(model) && connected
      modifies this`connected, this`invocations, this`methods, this`released, this`model
      ensures Valid() && Enabled(old(model), Reconnect(order)) && model == Apply(old(model), Reconnect(order))
    {
      connected := false;
      order := ReleaseInvocations();
      ReleaseMethods();
      StepKeepsInv(model, Reconnect(order));
      model := Apply(model, Reconnect(order));
    }
  }
}
