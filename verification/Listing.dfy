/** Lists without repetition: what loops over unordered containers visit. */
module Listing {

  ghost predicate Distinct(ids: seq<nat>) {
    forall i, j :: 0 <= i < j < |ids| ==> ids[i] != ids[j]
  }

  function Count(ids: seq<nat>, id: nat): nat {
    multiset(ids)[id]
  }

  lemma CountAppend(a: seq<nat>, b: seq<nat>, id: nat)
    ensures Count(a + b, id) == Count(a, id) + Count(b, id)
  {}

  lemma {:induction false} CountOnce(ids: seq<nat>, id: nat)
    requires Distinct(ids)
    ensures Count(ids, id) == if id in ids then 1 else 0
  {
    if ids != [] {
      var k := |ids| - 1;
      assert ids == ids[..k] + [ids[k]];
      CountOnce(ids[..k], id);
    }
  }

  lemma DistinctAppend(ids: seq<nat>, id: nat)
    requires Distinct(ids) && id !in ids
    ensures Distinct(ids + [id])
  {}

  lemma DistinctRest(id: nat, rest: seq<nat>)
    requires Distinct([id] + rest)
    ensures Distinct(rest) && id !in rest
  {
    var ids := [id] + rest;
    assert forall i :: 0 <= i < |rest| ==> rest[i] == ids[i + 1];
    assert ids[0] == id;
  }

  /** `order` lists every element of `ids` once, as a loop over an unordered map does. */
  ghost predicate Enumerates(order: seq<nat>, ids: set<nat>) {
    && (forall i :: 0 <= i < |order| ==> order[i] in ids)
    && (forall id :: id in ids ==> id in order)
    && Distinct(order)
  }

  lemma EnumeratesMore(order: seq<nat>, ids: set<nat>, id: nat)
    requires Enumerates(order, ids) && id !in ids
    ensures Enumerates(order + [id], ids + {id})
  {
    forall x | x in ids + {id} ensures x in order + [id] {}
  }

  lemma ListOneMore(order: seq<nat>, ids: set<nat>, todo: set<nat>, id: nat)
    requires Enumerates(order, ids - todo) && id in todo && id in ids
    ensures Enumerates(order + [id], ids - (todo - {id}))
  {
    EnumeratesMore(order, ids - todo, id);
    assert ids - (todo - {id}) == ids - todo + {id};
  }
}
