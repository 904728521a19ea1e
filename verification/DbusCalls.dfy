/**
 Calls and their promises: the script thread, which creates promises, sends and settles,
 and the pump thread, which pops replies, interleaved at the granularity of the locks.
 */
module DbusCalls {
  import opened Listing
  import opened Text

  /**
   Why a promise is settled. A reply is named by its connection and its reply serial, a loss by the
   connection lost.
   */
  datatype Cause =
    | Reply(connection: nat, serial: nat)
    | TimedOut(at: nat)
    | Disconnected(connection: nat)
    | Connected(ok: bool)

  datatype Item = Item(id: nat, cause: Cause)

  datatype Promise = Promise(created: nat, timeout: nat)

  /** Who holds `busIoMutex`, and what it is in the middle of. */
  datatype Lock =
    | Free
    | Sending(id: nat, serial: nat)   // sent, not yet registered
    | Popping(found: Option<Item>)    // popped and looked up, not yet queued

  /** Where the script thread is between two locks. */
  datatype Script =
    | Idle
    | Calling(id: nat)                // the promise exists, the message is not sent
    | Expiring(late: seq<Item>)       // timeouts collected, replies not yet taken
    | Settling(batch: seq<Item>)
    | Down

  datatype State = State(
    nextId: nat,
    promises: map<nat, Promise>,
    serials: map<nat, nat>,           // serialToPromiseId
    replies: seq<Item>,
    inbox: seq<nat>,                  // reply serials of messages that libdbus has received
    lock: Lock,
    script: Script,
    connection: nat,
    usedSerials: set<nat>,
    // History, which no code reads.
    created: map<nat, Promise>,
    createdOn: map<nat, nat>,         // the connection at the creation of a promise
    sent: map<nat, (nat, nat)>,
    connects: set<nat>,               // promises of connect calls
    reported: set<nat>,               // those whose outcome was queued
    answered: set<nat>,               // calls whose reply was popped and recognised
    log: seq<Item>,                   // settlements in order
    freed: seq<nat>)                  // releases of resolve and reject handles, in order

  const START := State(1, map[], map[], [], [], Free, Idle, 1, {}, map[], map[], map[], {}, {}, {}, [], [])

  datatype Step =
    | Create(now: nat, timeout: nat, connect: bool)
    | Send(serial: nat)
    | Register
    | Deliver(serial: nat)
    | Pop
    | Push
    | Expire(now: nat, order: seq<nat>)
    | Drain
    | Settle
    | Report(id: nat, ok: bool)
    | Reconnect(order: seq<nat>)
    | Shutdown(order: seq<nat>)

  predicate IsExpired(p: Promise, now: nat) {
    p.timeout > 0 && now - p.created > p.timeout
  }

  function ExpiredIds(promises: map<nat, Promise>, now: nat): set<nat> {
    set id | id in promises && IsExpired(promises[id], now)
  }

  function Items(order: seq<nat>, cause: Cause): seq<Item> {
    seq(|order|, i requires 0 <= i < |order| => Item(order[i], cause))
  }

  /** The serial map without the entries of the given promises. */
  function Forget(serials: map<nat, nat>, ids: set<nat>): map<nat, nat> {
    map s | s in serials && serials[s] !in ids :: serials[s]
  }

  ghost predicate Enabled(s: State, step: Step) {
    match step
    case Create(_, _, _) => s.script == Idle
    case Send(serial) => s.script.Calling? && s.lock == Free && serial !in s.usedSerials
    case Register => s.lock.Sending?
    case Deliver(_) => s.script != Down
    case Pop => s.lock == Free && s.inbox != [] && s.script != Down
    case Push => s.lock.Popping?
    case Expire(now, order) => s.script == Idle && Enumerates(order, ExpiredIds(s.promises, now))
    case Drain => s.script.Expiring?
    case Settle => s.script.Settling?
    case Report(id, _) => id in s.connects && id !in s.reported && s.script != Down
    case Reconnect(order) => s.script == Idle && s.lock == Free && Enumerates(order, s.promises.Keys)
    case Shutdown(order) => s.script == Idle && s.lock == Free && Enumerates(order, s.promises.Keys)
  }

  // ---- The steps, one by one. Serial 0 stands for a send that failed.

  function Created(s: State, now: nat, timeout: nat, connect: bool): State {
    var p := Promise(now, timeout);
    s.(nextId := s.nextId + 1, promises := s.promises[s.nextId := p], created := s.created[s.nextId := p],
       createdOn := s.createdOn[s.nextId := s.connection],
       connects := if connect then s.connects + {s.nextId} else s.connects,
       script := if connect then Idle else Calling(s.nextId))
  }

  function Sent(s: State, id: nat, serial: nat): State {
    if serial == 0 then s.(lock := Sending(id, 0))
    else
      s.(lock := Sending(id, serial), usedSerials := s.usedSerials + {serial},
         sent := s.sent[id := (s.connection, serial)])
  }

  function Registered(s: State, id: nat, serial: nat): State {
    s.(lock := Free, script := Idle,
       serials := if serial == 0 || serial in s.serials then s.serials else s.serials[serial := id])
  }

  function Popped(s: State, serial: nat, rest: seq<nat>): State {
    var found := if serial in s.serials then Some(Item(s.serials[serial], Reply(s.connection, serial))) else None;
    s.(inbox := rest, lock := Popping(found), serials := s.serials - {serial},
       answered := if found == None then s.answered else s.answered + {found.value.id})
  }

  function Pushed(s: State, found: Option<Item>): State {
    s.(lock := Free, replies := if found == None then s.replies else s.replies + [found.value])
  }

  function Expired(s: State, now: nat, order: seq<nat>): State {
    s.(script := Expiring(Items(order, TimedOut(now))), serials := Forget(s.serials, ExpiredIds(s.promises, now)))
  }

  function Drained(s: State, late: seq<Item>): State {
    s.(script := Settling(s.replies + late), replies := [])
  }

  /** The first item of the batch settles its promise, if it is still pending. */
  function SettleFirst(s: State, item: Item, rest: seq<Item>): State {
    if item.id in s.promises then
      s.(script := Settling(rest), promises := s.promises - {item.id}, log := s.log + [item],
         freed := s.freed + [item.id])
    else
      s.(script := Settling(rest))
  }

  function Reconnected(s: State, order: seq<nat>): State {
    s.(serials := map[], replies := s.replies + Items(order, Disconnected(s.connection)), inbox := [],
       connection := s.connection + 1, usedSerials := {})
  }

  function Stopped(s: State, order: seq<nat>): State {
    s.(script := Down, promises := map[], serials := map[], replies := [], inbox := [], freed := s.freed + order)
  }

  /** The effect of one step. */
  ghost function Apply(s: State, step: Step): State
    requires Enabled(s, step)
  {
    match step
    case Create(now, timeout, connect) => Created(s, now, timeout, connect)
    case Send(serial) => Sent(s, s.script.id, serial)
    case Register => Registered(s, s.lock.id, s.lock.serial)
    case Deliver(serial) => s.(inbox := s.inbox + [serial])
    case Pop => Popped(s, s.inbox[0], s.inbox[1..])
    case Push => Pushed(s, s.lock.found)
    case Expire(now, order) => Expired(s, now, order)
    case Drain => Drained(s, s.script.late)
    case Settle =>
      if s.script.batch == [] then s.(script := Idle)
      else SettleFirst(s, s.script.batch[0], s.script.batch[1..])
    case Report(id, ok) =>
      s.(replies := s.replies + [Item(id, Connected(ok))], reported := s.reported + {id})
    case Reconnect(order) => Reconnected(s, order)
    case Shutdown(order) => Stopped(s, order)
  }

  // ---- What every step keeps

  function IdsOf(items: seq<Item>): seq<nat> {
    seq(|items|, i requires 0 <= i < |items| => items[i].id)
  }

  /** An item on its way to a settlement: held by the pump, queued, or held by the script thread. */
  ghost predicate InFlight(s: State, item: Item) {
    || (s.lock.Popping? && s.lock.found == Some(item))
    || item in s.replies
    || (s.script.Expiring? && item in s.script.late)
    || (s.script.Settling? && item in s.script.batch)
  }

  /** The cause is one that may settle this promise. */
  ghost predicate Justified(s: State, item: Item) {
    item.id in s.created &&
    match item.cause
    case Reply(connection, serial) => item.id in s.sent && s.sent[item.id] == (connection, serial)
    case TimedOut(at) => IsExpired(s.created[item.id], at)
    case Disconnected(connection) => item.id in s.createdOn && s.createdOn[item.id] <= connection < s.connection
    case Connected(_) => item.id in s.connects && item.id in s.reported
  }

  ghost predicate Registering(s: State, id: nat) {
    s.lock.Sending? && s.lock.id == id
  }

  /** The call still waits for its reply, and the reply will be recognised. */
  ghost predicate Awaits(s: State, id: nat) {
    && id in s.sent && s.sent[id].0 == s.connection && id !in s.answered
    && s.sent[id].1 in s.serials && s.serials[s.sent[id].1] == id
  }

  ghost predicate IdsInv(s: State) {
    && (forall id :: id in s.created ==> id < s.nextId)
    && (forall id :: id in s.promises ==> id in s.created && s.promises[id] == s.created[id])
    && s.createdOn.Keys == s.created.Keys && (forall id :: id in s.createdOn ==> s.createdOn[id] <= s.connection)
    && (forall id :: id in s.sent ==> id in s.created && id !in s.connects)
    && (forall id :: id in s.connects ==> id in s.created)
    && (s.script.Calling? ==> s.script.id in s.created && s.script.id !in s.connects)
    && (s.script.Calling? && !s.lock.Sending? ==> s.script.id !in s.sent)
    && (s.lock.Sending? ==> s.script.Calling? && s.script.id == s.lock.id)
  }

  /** Every promise is pending, or settled and released once; after shutdown it is only released. */
  ghost predicate OnceInv(s: State) {
    && Distinct(IdsOf(s.log)) && Distinct(s.freed)
    && (forall i :: 0 <= i < |s.log| ==> s.log[i].id in s.freed)
    && (forall id :: id in s.freed <==> id in s.created && id !in s.promises)
    && (s.script == Down ==> s.promises == map[] && s.lock == Free)
  }

  ghost predicate CauseInv(s: State) {
    && (forall item :: InFlight(s, item) ==> Justified(s, item))
    && (forall item :: item in s.log ==> Justified(s, item))
  }

  ghost predicate SerialInv(s: State) {
    && (forall n :: n in s.serials ==>
          n in s.usedSerials && s.serials[n] in s.sent && s.sent[s.serials[n]] == (s.connection, n)
          && s.serials[n] !in s.answered)
    && (forall id :: id in s.sent ==> s.sent[id].0 <= s.connection)
    && (forall id :: id in s.sent && s.sent[id].0 == s.connection ==> s.sent[id].1 in s.usedSerials)
    && (s.lock.Sending? && s.lock.serial != 0 ==>
          && s.lock.id in s.sent && s.sent[s.lock.id] == (s.connection, s.lock.serial)
          && s.lock.serial !in s.serials)
    && (s.lock.Sending? ==> s.lock.id !in s.answered)
    && (s.lock.Sending? && s.lock.serial == 0 ==> s.lock.id !in s.sent)
    && (forall id :: id in s.answered ==> id in s.sent)
  }

  ghost predicate UnderWay(s: State, id: nat) {
    exists item :: InFlight(s, item) && item.id == id
  }

  /** A pending call whose send and registration are over. */
  ghost predicate Open(s: State, id: nat) {
    id in s.promises && id in s.sent && !Registering(s, id)
  }

  /** No reply is lost: a sent, pending call can be recognised, or its settlement is under way. */
  ghost predicate WaitInv(s: State) {
    forall id :: Open(s, id) ==> Awaits(s, id) || UnderWay(s, id)
  }

  ghost predicate Inv(s: State) {
    IdsInv(s) && OnceInv(s) && CauseInv(s) && SerialInv(s) && WaitInv(s)
  }

  lemma StepKeepsIds(s: State, step: Step)
    requires IdsInv(s) && Enabled(s, step)
    ensures IdsInv(Apply(s, step))
  {
    match step
    case Create(now, timeout, connect) => CreateKeepsIds(s, now, timeout, connect);
    case Send(serial) => SendKeepsIds(s, s.script.id, serial);
    case Settle =>
      if s.script.batch != [] { SettleKeepsIds(s, s.script.batch[0], s.script.batch[1..]); }
    case Register => case Deliver(_) => case Pop => case Push => case Expire(_, _) => case Drain =>
    case Report(_, _) => case Reconnect(_) => case Shutdown(_) =>
  }

  lemma CreateKeepsIds(s: State, now: nat, timeout: nat, connect: bool)
    requires IdsInv(s) && s.script == Idle
    ensures IdsInv(Created(s, now, timeout, connect))
  {}

  lemma SendKeepsIds(s: State, id: nat, serial: nat)
    requires IdsInv(s) && s.script == Calling(id)
    ensures IdsInv(Sent(s, id, serial))
  {}

  lemma SettleKeepsIds(s: State, item: Item, rest: seq<Item>)
    requires IdsInv(s) && s.script.Settling?
    ensures IdsInv(SettleFirst(s, item, rest))
  {}

  lemma StepKeepsSerials(s: State, step: Step)
    requires IdsInv(s) && SerialInv(s) && Enabled(s, step)
    ensures SerialInv(Apply(s, step))
  {
    match step
    case Pop => PopKeepsSerials(s, s.inbox[0], s.inbox[1..]);
    case Send(serial) => SendKeepsSerials(s, s.script.id, serial);
    case Register => RegisterKeepsSerials(s, s.lock.id, s.lock.serial);
    case Reconnect(order) => ReconnectKeepsSerials(s, order);
    case Expire(now, order) => ExpireKeepsSerials(s, now, order);
    case Create(_, _, _) => case Deliver(_) => case Push => case Drain => case Settle =>
    case Report(_, _) => case Shutdown(_) =>
  }

  lemma SendKeepsSerials(s: State, id: nat, serial: nat)
    requires IdsInv(s) && SerialInv(s) && s.script == Calling(id) && s.lock == Free && serial !in s.usedSerials
    ensures SerialInv(Sent(s, id, serial))
  {}

  lemma RegisterKeepsSerials(s: State, id: nat, serial: nat)
    requires SerialInv(s) && s.lock == Sending(id, serial)
    ensures SerialInv(Registered(s, id, serial))
  {}

  lemma PopKeepsSerials(s: State, serial: nat, rest: seq<nat>)
    requires SerialInv(s) && s.lock == Free
    ensures SerialInv(Popped(s, serial, rest))
  {}

  lemma ExpireKeepsSerials(s: State, now: nat, order: seq<nat>)
    requires SerialInv(s)
    ensures SerialInv(Expired(s, now, order))
  {}

  lemma ReconnectKeepsSerials(s: State, order: seq<nat>)
    requires SerialInv(s) && s.lock == Free
    ensures SerialInv(Reconnected(s, order))
  {}

  lemma SettleKeepsOnce(s: State, item: Item, rest: seq<Item>)
    requires IdsInv(s) && OnceInv(s) && s.script.Settling?
    ensures OnceInv(SettleFirst(s, item, rest))
  {
    var t := SettleFirst(s, item, rest);
    if item.id in s.promises {
      assert item.id !in s.freed;
      assert forall i :: 0 <= i < |t.log| ==> IdsOf(t.log)[i] == t.log[i].id;
      assert forall i :: 0 <= i < |s.log| ==> IdsOf(s.log)[i] == s.log[i].id;
      assert forall id :: id in t.freed <==> id in s.freed || id == item.id;
    }
  }

  lemma StopKeepsOnce(s: State, order: seq<nat>)
    requires IdsInv(s) && OnceInv(s) && s.lock == Free && Enumerates(order, s.promises.Keys)
    ensures OnceInv(Stopped(s, order))
  {
    assert forall id :: id in s.freed + order <==> id in s.freed || id in order;
  }

  lemma StepKeepsOnce(s: State, step: Step)
    requires IdsInv(s) && OnceInv(s) && Enabled(s, step)
    ensures OnceInv(Apply(s, step))
  {
    match step
    case Settle =>
      if s.script.batch != [] { SettleKeepsOnce(s, s.script.batch[0], s.script.batch[1..]); }
    case Shutdown(order) => StopKeepsOnce(s, order);
    case Create(_, _, _) => case Send(_) => case Register => case Deliver(_) => case Pop =>
    case Push => case Expire(_, _) => case Drain => case Report(_, _) => case Reconnect(_) =>
  }

  /** Items enter only with a cause that is justified. */
  lemma NewItems(s: State, step: Step, item: Item)
    requires IdsInv(s) && SerialInv(s) && Enabled(s, step)
    requires InFlight(Apply(s, step), item) && !InFlight(s, item)
    ensures Justified(Apply(s, step), item)
  {
    match step
    case Expire(now, order) => NewTimeout(s, now, order, item);
    case Reconnect(order) => NewLoss(s, order, item);
    case Create(_, _, _) => case Send(_) => case Register => case Deliver(_) => case Pop =>
    case Push => case Drain => case Settle => case Report(_, _) => case Shutdown(_) =>
  }

  lemma NewTimeout(s: State, now: nat, order: seq<nat>, item: Item)
    requires IdsInv(s) && Enumerates(order, ExpiredIds(s.promises, now))
    requires InFlight(Expired(s, now, order), item) && !InFlight(s, item)
    ensures Justified(Expired(s, now, order), item)
  {
    assert item in Items(order, TimedOut(now)) ==> item.id in order;
  }

  lemma NewLoss(s: State, order: seq<nat>, item: Item)
    requires IdsInv(s) && Enumerates(order, s.promises.Keys)
    requires InFlight(Reconnected(s, order), item) && !InFlight(s, item)
    ensures Justified(Reconnected(s, order), item)
  {
    assert item in Items(order, Disconnected(s.connection)) ==> item.id in order;
  }

  /** What every later state knows as well. */
  ghost predicate Later(s: State, t: State) {
    && s.connection <= t.connection && s.connects <= t.connects && s.reported <= t.reported
    && (forall id :: id in s.created ==> id in t.created && t.created[id] == s.created[id])
    && (forall id :: id in s.createdOn ==> id in t.createdOn && t.createdOn[id] == s.createdOn[id])
    && (forall id :: id in s.sent ==> id in t.sent && t.sent[id] == s.sent[id])
  }

  lemma CreateIsLater(s: State, now: nat, timeout: nat, connect: bool)
    requires IdsInv(s)
    ensures Later(s, Created(s, now, timeout, connect))
  {}

  lemma SendIsLater(s: State, id: nat, serial: nat)
    requires id !in s.sent
    ensures Later(s, Sent(s, id, serial))
  {}

  /** The steps that create nothing and send nothing. */
  lemma RestIsLater(s: State, t: State)
    requires t.created == s.created && t.createdOn == s.createdOn && t.sent == s.sent
    requires s.connection <= t.connection && s.connects <= t.connects && s.reported <= t.reported
    ensures Later(s, t)
  {}

  lemma StepIsLater(s: State, step: Step)
    requires IdsInv(s) && Enabled(s, step)
    ensures Later(s, Apply(s, step))
  {
    match step
    case Create(now, timeout, connect) => CreateIsLater(s, now, timeout, connect);
    case Send(serial) => SendIsLater(s, s.script.id, serial);
    case _ => RestIsLater(s, Apply(s, step));
  }

  lemma StaysJustified(s: State, t: State, item: Item)
    requires Later(s, t) && Justified(s, item)
    ensures Justified(t, item)
  {}

  lemma StepKeepsCauses(s: State, step: Step)
    requires Inv(s) && Enabled(s, step)
    ensures CauseInv(Apply(s, step))
  {
    var t := Apply(s, step);
    StepIsLater(s, step);
    forall item | InFlight(t, item) ensures Justified(t, item) {
      if InFlight(s, item) { StaysJustified(s, t, item); } else { NewItems(s, step, item); }
    }
    forall item | item in t.log ensures Justified(t, item) {
      if item !in s.log { assert InFlight(s, item); }
      StaysJustified(s, t, item);
    }
  }

  /** An item stays in flight until its promise is settled or the plugin shuts down. */
  lemma StaysInFlight(s: State, step: Step, item: Item)
    requires IdsInv(s) && OnceInv(s) && Enabled(s, step) && InFlight(s, item)
    requires item.id in Apply(s, step).promises
    ensures InFlight(Apply(s, step), item)
  {
    match step
    case Push => PushKeepsFlight(s, item);
    case Drain => DrainKeepsFlight(s, item);
    case Settle => SettleKeepsFlight(s, item);
    case Create(_, _, _) => case Send(_) => case Register => case Deliver(_) => case Pop =>
    case Expire(_, _) => case Report(_, _) => case Reconnect(_) => case Shutdown(_) =>
  }

  lemma PushKeepsFlight(s: State, item: Item)
    requires Enabled(s, Push) && InFlight(s, item)
    ensures InFlight(Apply(s, Push), item)
  {}

  lemma DrainKeepsFlight(s: State, item: Item)
    requires Enabled(s, Drain) && InFlight(s, item)
    ensures InFlight(Apply(s, Drain), item)
  {}

  lemma SettleKeepsFlight(s: State, item: Item)
    requires Enabled(s, Settle) && OnceInv(s) && InFlight(s, item) && item.id in Apply(s, Settle).promises
    ensures InFlight(Apply(s, Settle), item)
  {
    var batch := s.script.batch;
    if batch != [] {
      assert batch == [batch[0]] + batch[1..];
      FirstKeepsFlight(s, batch[0], batch[1..], item);
    }
  }

  lemma FirstKeepsFlight(s: State, first: Item, rest: seq<Item>, item: Item)
    requires s.script == Settling([first] + rest) && InFlight(s, item)
    requires item.id in SettleFirst(s, first, rest).promises
    ensures InFlight(SettleFirst(s, first, rest), item)
  {}

  lemma StepKeepsWaits(s: State, step: Step)
    requires Inv(s) && Enabled(s, step)
    ensures WaitInv(Apply(s, step))
  {
    var t := Apply(s, step);
    forall id | Open(t, id)
      ensures Awaits(t, id) || UnderWay(t, id)
    {
      if UnderWay(s, id) {
        var item :| InFlight(s, item) && item.id == id;
        StaysInFlight(s, step, item);
      } else {
        CallKeepsWaiting(s, step, id);
      }
    }
  }

  lemma CallKeepsWaiting(s: State, step: Step, id: nat)
    requires IdsInv(s) && SerialInv(s) && WaitInv(s) && Enabled(s, step) && !UnderWay(s, id) && Open(Apply(s, step), id)
    ensures Awaits(Apply(s, step), id) || UnderWay(Apply(s, step), id)
  {
    match step
    case Expire(now, order) => ExpireKeepsWaiting(s, now, order, id);
    case Reconnect(order) =>
      ItemsHas(order, Disconnected(s.connection), id);
      assert InFlight(Apply(s, step), Item(id, Disconnected(s.connection)));
    case Pop => PopKeepsWaiting(s, id);
    case Register => RegisterKeepsWaiting(s, id);
    case Create(_, _, _) => case Send(_) => case Deliver(_) => case Push => case Drain =>
    case Settle => case Report(_, _) => case Shutdown(_) =>
  }

  lemma ExpireKeepsWaiting(s: State, now: nat, order: seq<nat>, id: nat)
    requires IdsInv(s) && SerialInv(s) && WaitInv(s) && Enabled(s, Expire(now, order)) && Open(s, id)
    requires !UnderWay(s, id)
    ensures Awaits(Apply(s, Expire(now, order)), id) || UnderWay(Apply(s, Expire(now, order)), id)
  {
    if id in ExpiredIds(s.promises, now) {
      ItemsHas(order, TimedOut(now), id);
      assert InFlight(Apply(s, Expire(now, order)), Item(id, TimedOut(now)));
    }
  }

  lemma PopKeepsWaiting(s: State, id: nat)
    requires IdsInv(s) && SerialInv(s) && WaitInv(s) && Enabled(s, Pop) && Open(s, id) && !UnderWay(s, id)
    ensures Awaits(Apply(s, Pop), id) || UnderWay(Apply(s, Pop), id)
  {
    var n := s.inbox[0];
    if s.sent[id].1 == n {
      assert InFlight(Apply(s, Pop), Item(id, Reply(s.connection, n)));
    }
  }

  lemma RegisterKeepsWaiting(s: State, id: nat)
    requires IdsInv(s) && SerialInv(s) && WaitInv(s) && Enabled(s, Register)
    requires Open(Apply(s, Register), id) && !UnderWay(s, id)
    ensures Awaits(Apply(s, Register), id) || UnderWay(Apply(s, Register), id)
  {}

  lemma ItemsHas(order: seq<nat>, cause: Cause, id: nat)
    requires id in order
    ensures Item(id, cause) in Items(order, cause)
  {
    var i :| 0 <= i < |order| && order[i] == id;
    assert Items(order, cause)[i] == Item(id, cause);
  }

  lemma StepKeepsInv(s: State, step: Step)
    requires Inv(s) && Enabled(s, step)
    ensures Inv(Apply(s, step))
  {
    StepKeepsIds(s, step);
    StepKeepsOnce(s, step);
    StepKeepsCauses(s, step);
    StepKeepsSerials(s, step);
    StepKeepsWaits(s, step);
  }

  // ---- Whole runs

  ghost predicate Feasible(s: State, steps: seq<Step>)
    decreases |steps|
  {
    steps == [] || (Enabled(s, steps[0]) && Feasible(Apply(s, steps[0]), steps[1..]))
  }

  ghost function Exec(s: State, steps: seq<Step>): State
    requires Feasible(s, steps)
    decreases |steps|
  {
    if steps == [] then s else Exec(Apply(s, steps[0]), steps[1..])
  }

  ghost predicate Reachable(s: State) {
    exists steps :: Feasible(START, steps) && Exec(START, steps) == s
  }

  lemma {:induction false} RunKeepsInv(s: State, steps: seq<Step>)
    requires Inv(s) && Feasible(s, steps)
    ensures Inv(Exec(s, steps))
    decreases |steps|
  {
    if steps != [] {
      StepKeepsInv(s, steps[0]);
      RunKeepsInv(Apply(s, steps[0]), steps[1..]);
    }
  }

  lemma StartInv()
    ensures Inv(START)
  {}

  lemma ReachableInv(s: State)
    requires Reachable(s)
    ensures Inv(s)
  {
    var steps :| Feasible(START, steps) && Exec(START, steps) == s;
    StartInv();
    RunKeepsInv(START, steps);
  }

  /**
   Safety over every run: a promise is settled at most once, and only for a reason that concerns
   it; its handles are released once when it stops being pending, and not before.
   */
  lemma SettledAtMostOnce(s: State, id: nat)
    requires Reachable(s) && id in s.created
    ensures Count(IdsOf(s.log), id) <= 1
    ensures Count(s.freed, id) == if id in s.promises then 0 else 1
    ensures id in s.promises ==> id !in IdsOf(s.log)
    ensures s.script == Down ==> Count(s.freed, id) == 1
    ensures forall item :: item in s.log && item.id == id ==>
              match item.cause
              case Reply(connection, serial) => id in s.sent && s.sent[id] == (connection, serial)
              case TimedOut(at) => IsExpired(s.created[id], at)
              case Disconnected(connection) => id in s.createdOn && s.createdOn[id] <= connection < s.connection
              case Connected(_) => id in s.connects
  {
    ReachableInv(s);
    CountOnce(IdsOf(s.log), id);
    CountOnce(s.freed, id);
    if id in IdsOf(s.log) {
      var i :| 0 <= i < |s.log| && IdsOf(s.log)[i] == id;
      assert s.log[i].id == id;
    }
  }

  /** Serials name calls: on one connection, no two calls are sent under the same serial. */
  ghost predicate SerialsUnique(s: State) {
    && (forall a, b :: a in s.sent && b in s.sent && s.sent[a] == s.sent[b] ==> a == b)
    && (forall a :: a in s.sent ==> s.sent[a].0 <= s.connection)
    && (forall a :: a in s.sent && s.sent[a].0 == s.connection ==> s.sent[a].1 in s.usedSerials)
  }

  lemma StepKeepsSerialsUnique(s: State, step: Step)
    requires IdsInv(s) && SerialsUnique(s) && Enabled(s, step)
    ensures SerialsUnique(Apply(s, step))
  {
    match step
    case Send(serial) => SendKeepsSerialsUnique(s, serial);
    case Create(_, _, _) => case Register => case Deliver(_) => case Pop => case Push =>
    case Expire(_, _) => case Drain => case Settle => case Report(_, _) => case Reconnect(_) =>
    case Shutdown(_) =>
  }

  lemma SendKeepsSerialsUnique(s: State, serial: nat)
    requires IdsInv(s) && SerialsUnique(s) && Enabled(s, Send(serial))
    ensures SerialsUnique(Apply(s, Send(serial)))
  {}

  lemma {:induction false} RunKeepsSerialsUnique(s: State, steps: seq<Step>)
    requires Inv(s) && SerialsUnique(s) && Feasible(s, steps)
    ensures SerialsUnique(Exec(s, steps))
    decreases |steps|
  {
    if steps != [] {
      StepKeepsInv(s, steps[0]);
      StepKeepsSerialsUnique(s, steps[0]);
      RunKeepsSerialsUnique(Apply(s, steps[0]), steps[1..]);
    }
  }

  /** A reply settles only the call it answers: no two promises settle on the same reply. */
  lemma ReplySettlesItsOwnCall(s: State, a: Item, b: Item)
    requires Reachable(s) && a in s.log && b in s.log && a.cause == b.cause && a.cause.Reply?
    ensures a == b
  {
    ReachableInv(s);
    StartInv();
    var steps :| Feasible(START, steps) && Exec(START, steps) == s;
    RunKeepsSerialsUnique(START, steps);
    assert Justified(s, a) && Justified(s, b);
  }

  /** What was settled or released stays so, and shutdown is the last step of every run. */
  lemma HistoryStep(s: State, step: Step)
    requires OnceInv(s) && Enabled(s, step)
    ensures s.log <= Apply(s, step).log && s.freed <= Apply(s, step).freed && s.script != Down
  {
    match step
    case Create(_, _, _) => case Send(_) => case Register => case Deliver(_) => case Pop =>
    case Push => case Expire(_, _) => case Drain => case Settle => case Report(_, _) =>
    case Reconnect(_) => case Shutdown(_) =>
  }

  lemma {:induction false} HistoryGrows(s: State, steps: seq<Step>)
    requires Inv(s) && Feasible(s, steps)
    ensures s.log <= Exec(s, steps).log && s.freed <= Exec(s, steps).freed
    ensures s.script == Down ==> steps == []
    decreases |steps|
  {
    if steps != [] {
      StepKeepsInv(s, steps[0]);
      HistoryStep(s, steps[0]);
      HistoryGrows(Apply(s, steps[0]), steps[1..]);
    }
  }

  /**
   No reply is lost. When the reply to a pending call of the live connection is next in libdbus'
   queue, either the pump finds the call in the map, or a settlement of that very call is
   already on its way. The exclusion of `Registering` is not a hole: the pump cannot pop then.
   */
  lemma NoReplyMissesItsEntry(s: State, id: nat)
    requires Reachable(s) && Enabled(s, Pop)
    requires id in s.promises && id in s.sent && s.sent[id] == (s.connection, s.inbox[0])
    ensures UnderWay(s, id) || Apply(s, Pop).lock == Popping(Some(Item(id, Reply(s.connection, s.inbox[0]))))
  {
    ReachableInv(s);
  }

  // ---- From a queued item to a settlement

  /** The script thread has taken the promise into the update it is busy with, or settled it. */
  ghost predicate Due(s: State, id: nat) {
    id in s.created &&
    (|| id !in s.promises
     || (s.script.Expiring? && id in IdsOf(s.replies + s.script.late))
     || (s.script.Settling? && id in IdsOf(s.script.batch)))
  }

  lemma IdsHas(items: seq<Item>, item: Item)
    requires item in items
    ensures item.id in IdsOf(items)
  {
    var i :| 0 <= i < |items| && items[i] == item;
    assert IdsOf(items)[i] == item.id;
  }

  lemma DueStep(s: State, step: Step, id: nat)
    requires Inv(s) && Due(s, id) && Enabled(s, step)
    ensures Due(Apply(s, step), id)
  {
    StepIsLater(s, step);
    if id in Apply(s, step).promises {
      if s.script.Expiring? { DueTaken(s, step, id); } else { DueInBatch(s, step, id); }
    }
  }

  lemma DueTaken(s: State, step: Step, id: nat)
    requires IdsInv(s) && Due(s, id) && Enabled(s, step) && s.script.Expiring? && id in s.promises
    ensures var t := Apply(s, step).script;
            || (t.Expiring? && id in IdsOf(Apply(s, step).replies + t.late))
            || (t.Settling? && id in IdsOf(t.batch))
  {
    var t, all := Apply(s, step), s.replies + s.script.late;
    var i :| 0 <= i < |all| && IdsOf(all)[i] == id;
    if step == Drain {
      IdsHas(t.script.batch, all[i]);
    } else {
      assert t.script == s.script && s.replies <= t.replies;
      assert all[i] in t.replies + t.script.late;
      IdsHas(t.replies + t.script.late, all[i]);
    }
  }

  lemma DueInBatch(s: State, step: Step, id: nat)
    requires IdsInv(s) && Due(s, id) && Enabled(s, step) && s.script.Settling?
    requires id in s.promises && id in Apply(s, step).promises
    ensures Apply(s, step).script.Settling? && id in IdsOf(Apply(s, step).script.batch)
  {
    var t := Apply(s, step);
    var i :| 0 <= i < |s.script.batch| && IdsOf(s.script.batch)[i] == id;
    var item := s.script.batch[i];
    if step == Settle { assert item in t.script.batch; }
    IdsHas(t.script.batch, item);
  }

  lemma {:induction false} DueRun(s: State, steps: seq<Step>, id: nat)
    requires Inv(s) && Due(s, id) && Feasible(s, steps)
    ensures Due(Exec(s, steps), id)
    decreases |steps|
  {
    if steps != [] {
      StepKeepsInv(s, steps[0]);
      DueStep(s, steps[0], id);
      DueRun(Apply(s, steps[0]), steps[1..], id);
    }
  }

  /**
   Whatever the pump and the connector do meanwhile, once an update that began with the
   promise expired, or with an item for it queued, is over, the promise is no longer pending
   and its handles are released.
   */
  lemma UpdateSettles(s: State, now: nat, order: seq<nat>, steps: seq<Step>, id: nat)
    requires Reachable(s) && Enabled(s, Expire(now, order)) && Feasible(Apply(s, Expire(now, order)), steps)
    requires id in s.promises && (IsExpired(s.promises[id], now) || id in IdsOf(s.replies))
    ensures var t := Exec(Apply(s, Expire(now, order)), steps);
      t.script.Expiring? || t.script.Settling? || (id !in t.promises && id in t.freed)
  {
    ReachableInv(s);
    var u := Apply(s, Expire(now, order));
    StepKeepsInv(s, Expire(now, order));
    if IsExpired(s.promises[id], now) {
      ItemsHas(order, TimedOut(now), id);
      IdsHas(u.replies + u.script.late, Item(id, TimedOut(now)));
    } else {
      var i :| 0 <= i < |s.replies| && IdsOf(s.replies)[i] == id;
      assert s.replies[i] in u.replies + u.script.late;
      IdsHas(u.replies + u.script.late, s.replies[i]);
    }
    DueRun(u, steps, id);
    RunKeepsInv(u, steps);
  }
}
