/**
 The loops of the script thread over promises, serials and replies, run without interruption by
 the pump. Each is shown to take the steps of `DbusCalls`, so every theorem about runs applies.
 */
module DbusUpdate {
  import opened Listing
  import opened Text
  import opened DbusCalls

  lemma {:induction false} ExecAppend(s: State, steps: seq<Step>, step: Step)
    requires Feasible(s, steps) && Enabled(Exec(s, steps), step)
    ensures Feasible(s, steps + [step]) && Exec(s, steps + [step]) == Apply(Exec(s, steps), step)
    decreases |steps|
  {
    if steps == [] {
      assert steps + [step] == [step] && [step][1..] == [];
    } else {
      assert (steps + [step])[1..] == steps[1..] + [step];
      ExecAppend(Apply(s, steps[0]), steps[1..], step);
    }
  }

  lemma FirstStep(s: State, step: Step, steps: seq<Step>)
    requires Enabled(s, step) && Feasible(Apply(s, step), steps)
    ensures Feasible(s, [step] + steps) && Exec(s, [step] + steps) == Exec(Apply(s, step), steps)
  {
    assert ([step] + steps)[1..] == steps;
  }

  lemma ForgetMore(serials: map<nat, nat>, ids: set<nat>, id: nat)
    ensures Forget(Forget(serials, ids), {id}) == Forget(serials, ids + {id})
  {}

  lemma ForgetNone(serials: map<nat, nat>)
    ensures Forget(serials, {}) == serials
  {}

  lemma ItemsMore(order: seq<nat>, cause: Cause, id: nat)
    ensures Items(order + [id], cause) == Items(order, cause) + [Item(id, cause)]
  {}

  lemma IdsSplit(a: seq<Item>, b: seq<Item>, id: nat)
    ensures id in IdsOf(a + b) <==> id in IdsOf(a) || id in IdsOf(b)
  {
    if id in IdsOf(a) {
      var i :| 0 <= i < |a| && IdsOf(a)[i] == id;
      assert IdsOf(a + b)[i] == id;
    }
    if id in IdsOf(b) {
      var i :| 0 <= i < |b| && IdsOf(b)[i] == id;
      assert IdsOf(a + b)[|a| + i] == id;
    }
    if id in IdsOf(a + b) {
      var i :| 0 <= i < |a + b| && IdsOf(a + b)[i] == id;
      assert if i < |a| then IdsOf(a)[i] == id else IdsOf(b)[i - |a|] == id;
    }
  }

  function SetOf(ids: seq<nat>): set<nat> {
    set id | id in ids
  }

  lemma ItemsIds(order: seq<nat>, cause: Cause)
    ensures IdsOf(Items(order, cause)) == order
  {}

  lemma SendThenRegister(s: State, id: nat, serial: nat)
    requires Enabled(s, Send(serial)) && SerialInv(s) && s.script == Calling(id)
    ensures serial in s.serials ==> serial == 0
    ensures var t := Apply(s, Send(serial));
      && Enabled(t, Register)
      && var u := Apply(t, Register);
         && u.promises == s.promises && u.replies == s.replies && u.log == s.log && u.freed == s.freed
         && u.serials == if serial == 0 then s.serials else s.serials[serial := id]
  {}

  class Bus {
    var promises: map<nat, Promise>
    var serials: map<nat, nat>
    var replies: seq<Item>
    var settled: seq<Item>  // calls of a resolve or reject function
    var freed: seq<nat>     // releases of a pair of such functions
    ghost var model: State

    ghost predicate Valid()
      reads this
    {
      && model.promises == promises && model.serials == serials && model.replies == replies
      && model.log == settled && model.freed == freed
    }

    /** Erases every serial that maps to the promise. */
    method DropSerials(id: nat)
      modifies this`serials
      ensures serials == Forget(old(serials), {id})
    {
      var todo := serials.Keys;
      while todo != {}
        invariant todo <= serials.Keys <= old(serials).Keys
        invariant forall n :: n in serials <==> n in old(serials) && (n in todo || old(serials)[n] != id)
        invariant forall n :: n in serials ==> serials[n] == old(serials)[n]
        decreases |todo|
      {
        var n :| n in todo;
        todo := todo - {n};
        if serials[n] == id {
          serials := serials - {n};
        }
      }
    }

    method CollectTimeouts(now: nat) returns (late: seq<Item>, ghost order: seq<nat>)
      requires Valid() && model.script == Idle
      modifies this`serials, this`model
      ensures Valid() && Enabled(old(model), Expire(now, order))
      ensures model == Apply(old(model), Expire(now, order)) && late == model.script.late
    {
      late, order := [], [];
      var todo := promises.Keys;
      ForgetNone(serials);
      assert ExpiredIds(promises, now) - todo == {};
      while todo != {}
        invariant todo <= promises.Keys && model == old(model)
        invariant Enumerates(order, ExpiredIds(promises, now) - todo)
        invariant late == Items(order, TimedOut(now))
        invariant serials == Forget(old(serials), ExpiredIds(promises, now) - todo)
        decreases |todo|
      {
        var id :| id in todo;
        ghost var done := ExpiredIds(promises, now) - todo;
        todo := todo - {id};
        if IsExpired(promises[id], now) {
          late := late + [Item(id, TimedOut(now))];
          EnumeratesMore(order, done, id);
          ItemsMore(order, TimedOut(now), id);
          order := order + [id];
          ForgetMore(old(serials), done, id);
          DropSerials(id);
          assert ExpiredIds(promises, now) - todo == done + {id};
        } else {
          assert ExpiredIds(promises, now) - todo == done;
        }
      }
      assert ExpiredIds(promises, now) - {} == ExpiredIds(promises, now);
      model := Apply(model, Expire(now, order));
    }

    /** Empties the reply queue; the timeouts come after the replies. */
    method TakeReplies(late: seq<Item>) returns (batch: seq<Item>)
      requires Valid() && model.script == Expiring(late)
      modifies this`replies, this`model
      ensures Valid() && model == Apply(old(model), Drain) && model.script == Settling(batch)
    {
      batch := [];
      while replies != []
        invariant batch + replies == old(replies) && model == old(model)
        decreases |replies|
      {
        AppendMoves(batch, replies);
        batch := batch + [replies[0]];
        replies := replies[1..];
      }
      assert batch + [] == batch;
      batch := batch + late;
      model := Apply(model, Drain);
    }

    lemma AppendMoves(batch: seq<Item>, queue: seq<Item>)
      requires queue != []
      ensures batch + [queue[0]] + queue[1..] == batch + queue
    {}

    /** One turn of the settling loop, for the item in front. */
    method SettleOne(r: Item, rest: seq<Item>)
      requires Valid() && model.script == Settling([r] + rest)
      modifies this`promises, this`settled, this`freed, this`model
      ensures Valid() && model.script == Settling(rest)
      ensures model == Apply(old(model), Settle)
      ensures promises == old(promises) - {r.id}
    {
      assert ([r] + rest)[1..] == rest;
      if r.id in promises {
        promises := promises - {r.id};
        settled := settled + [r];
        freed := freed + [r.id];
      }
      model := Apply(model, Settle);
    }

    lemma BatchTurn(batch: seq<Item>, i: nat, pending: map<nat, Promise>)
      requires i < |batch|
      ensures batch[i..] == [batch[i]] + batch[i + 1..]
      ensures (pending - SetOf(IdsOf(batch[..i])) - {batch[i].id}
               == pending - SetOf(IdsOf(batch[..i + 1])))
    {
      assert IdsOf(batch[..i + 1]) == IdsOf(batch[..i]) + [batch[i].id];
    }

    /** Settles and releases the pending promises of the batch, the first item of each deciding. */
    method SettleItems(batch: seq<Item>) returns (ghost steps: seq<Step>)
      requires Valid() && model.script == Settling(batch)
      modifies this`promises, this`settled, this`freed, this`model
      ensures Valid() && model.script == Settling([])
      ensures Feasible(old(model), steps) && Exec(old(model), steps) == model
      ensures promises == old(promises) - SetOf(IdsOf(batch))
    {
      ghost var start := model;
      steps := [];
      var i := 0;
      assert batch[0..] == batch;
      while i < |batch|
        invariant 0 <= i <= |batch|
        invariant Valid() && model.script == Settling(batch[i..])
        invariant Feasible(start, steps) && Exec(start, steps) == model
        invariant promises == old(promises) - SetOf(IdsOf(batch[..i]))
      {
        BatchTurn(batch, i, old(promises));
        ExecAppend(start, steps, Settle);
        SettleOne(batch[i], batch[i + 1..]);
        steps := steps + [Settle];
        i := i + 1;
      }
      assert batch[..i] == batch;
    }

    /** The settling part of an update, which ends by giving the lock back. */
    method SettleBatch(batch: seq<Item>) returns (ghost steps: seq<Step>)
      requires Valid() && model.script == Settling(batch)
      modifies this`promises, this`settled, this`freed, this`model
      ensures Valid() && model.script == Idle
      ensures Feasible(old(model), steps) && Exec(old(model), steps) == model
      ensures promises == old(promises) - SetOf(IdsOf(batch))
    {
      steps := SettleItems(batch);
      ExecAppend(old(model), steps, Settle);
      steps := steps + [Settle];
      model := Apply(model, Settle);
    }

    /**
     One update: what was expired or had a reply queued is no longer pending; nothing else
     changes state.
     */
    method Update(now: nat) returns (ghost steps: seq<Step>)
      requires Valid() && model.script == Idle && Inv(model)
      modifies this
      ensures Valid() && model.script == Idle && Inv(model)
      ensures Feasible(old(model), steps) && Exec(old(model), steps) == model
      ensures replies == []
      ensures forall id :: id in promises <==>
        id in old(promises) && !IsExpired(old(promises)[id], now) && id !in IdsOf(old(replies))
      ensures forall id :: id in promises ==> promises[id] == old(promises)[id]
    {
      var late, order := CollectTimeouts(now);
      ghost var collected := model;
      var batch := TakeReplies(late);
      ghost var settling := SettleBatch(batch);
      BatchIds(old(promises), now, old(replies), order);
      steps := [Expire(now, order)] + ([Drain] + settling);
      FirstStep(collected, Drain, settling);
      FirstStep(old(model), Expire(now, order), [Drain] + settling);
      RunKeepsInv(old(model), steps);
    }

    lemma BatchIds(promises: map<nat, Promise>, now: nat, replies: seq<Item>, order: seq<nat>)
      requires Enumerates(order, ExpiredIds(promises, now))
      ensures forall id :: id in IdsOf(replies + Items(order, TimedOut(now))) <==>
                (id in promises && IsExpired(promises[id], now)) || id in IdsOf(replies)
    {
      forall id
        ensures (id in IdsOf(replies + Items(order, TimedOut(now))) <==>
                 (id in promises && IsExpired(promises[id], now)) || id in IdsOf(replies))
      {
        IdsSplit(replies, Items(order, TimedOut(now)), id);
        ItemsIds(order, TimedOut(now));
      }
    }

    method QueueFailures(lost: nat) returns (ghost order: seq<nat>)
      modifies this`replies
      ensures Enumerates(order, promises.Keys)
      ensures replies == old(replies) + Items(order, Disconnected(lost))
    {
      order := [];
      var todo := promises.Keys;
      while todo != {}
        invariant todo <= promises.Keys
        invariant Enumerates(order, promises.Keys - todo)
        invariant replies == old(replies) + Items(order, Disconnected(lost))
        decreases |todo|
      {
        var id :| id in todo;
        replies := replies + [Item(id, Disconnected(lost))];
        ListOneMore(order, promises.Keys, todo, id);
        ItemsMore(order, Disconnected(lost), id);
        AppendAssociates(old(replies), Items(order, Disconnected(lost)), [Item(id, Disconnected(lost))]);
        todo := todo - {id};
        order := order + [id];
      }
      assert promises.Keys - {} == promises.Keys;
    }

    /** A lost connection: every pending promise is to be rejected. */
    method FailPending(lost: nat) returns (ghost order: seq<nat>)
      requires Valid() && model.connection == lost && model.script == Idle && model.lock == Free
      modifies this`serials, this`replies, this`model
      ensures Valid() && Enabled(old(model), Reconnect(order)) && model == Apply(old(model), Reconnect(order))
    {
      serials := map[];
      order := QueueFailures(lost);
      model := Apply(model, Reconnect(order));
    }

    method FreeHandles() returns (ghost order: seq<nat>)
      modifies this`freed
      ensures Enumerates(order, promises.Keys)
      ensures freed == old(freed) + order
    {
      order := [];
      var todo := promises.Keys;
      while todo != {}
        invariant todo <= promises.Keys
        invariant Enumerates(order, promises.Keys - todo)
        invariant freed == old(freed) + order
        decreases |todo|
      {
        var id :| id in todo;
        freed := freed + [id];
        ListOneMore(order, promises.Keys, todo, id);
        AppendAssociates(old(freed), order, [id]);
        todo := todo - {id};
        order := order + [id];
      }
      assert promises.Keys - {} == promises.Keys;
    }

    /** Shutdown: the handles of what is still pending are released, nothing is settled. */
    method ReleaseAll() returns (ghost order: seq<nat>)
      requires Valid() && model.script == Idle && model.lock == Free
      modifies this
      ensures Valid() && Enabled(old(model), Shutdown(order)) && model == Apply(old(model), Shutdown(order))
    {
      order := FreeHandles();
      promises, serials, replies := map[], map[], [];
      model := Apply(model, Shutdown(order));
    }

    /** The pump's treatment of one popped reply, up to the queueing of its outcome. */
    method PopReply(serial: nat) returns (found: Option<nat>)
      requires Valid() && Enabled(model, Pop) && model.inbox[0] == serial
      modifies this`serials, this`model
      ensures Valid() && model == Apply(old(model), Pop)
      ensures (model.lock == Popping(match found
                                     case None => None
                                     case Some(id) => Some(Item(id, Reply(old(model).connection, serial)))))
    {
      found := None;
      if serial in serials {
        found := Some(serials[serial]);
        serials := serials - {serial};
      }
      assert serial !in old(serials) ==> old(serials) - {serial} == old(serials);
      model := Apply(model, Pop);
    }

    /** Sending and registering, which hold `busIoMutex` together. Serial 0 is a failed send. */
    method SendAndRegister(id: nat, serial: nat)
      requires Valid() && Enabled(model, Send(serial)) && SerialInv(model) && model.script == Calling(id)
      modifies this`serials, this`model
      ensures Valid() && Enabled(Apply(old(model), Send(serial)), Register)
      ensures model == Apply(Apply(old(model), Send(serial)), Register)
      ensures serial != 0 ==> serial in serials && serials[serial] == id
    {
      SendThenRegister(model, id, serial);
      model := Apply(Apply(model, Send(serial)), Register);
      if serial != 0 && serial !in serials {
        serials := serials[serial := id];
      }
    }
  }
}
