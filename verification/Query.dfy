/** Query strings: `params_to_query_str` and `parse_query_text`. */
module Query {
  import opened Fields
  import opened Text
  import Url

  type Pair = (string, string)

  /** One pair; the key is written as it is. */
  function PairText(p: Pair): string
    requires IsBytes(p.1)
  {
    p.0 + ("=" + Url.Encode(p.1))
  }

  predicate ByteValues(pairs: seq<Pair>) {
    forall i :: 0 <= i < |pairs| ==> IsBytes(pairs[i].1)
  }

  function QueryText(pairs: seq<Pair>): string
    requires ByteValues(pairs)
    decreases |pairs|, 0
  {
    if pairs == [] then "" else PairText(pairs[0]) + Further(pairs[1..])
  }

  /** Pairs behind others. */
  function Further(pairs: seq<Pair>): string
    requires ByteValues(pairs)
    decreases |pairs|, 1
  {
    if pairs == [] then "" else "&" + QueryText(pairs)
  }

  /** The pairs in the order in which the multimap is iterated. */
  method ParamsToQueryStr(pairs: seq<Pair>) returns (query: string)
    requires ByteValues(pairs)
    ensures query == QueryText(pairs)
  {
    query := "";
    ghost var all := QueryText(pairs);
    assert "" + all == all && pairs[0..] == pairs;
    for i := 0 to |pairs|
      invariant query + (if i == 0 then all else Further(pairs[i..])) == all
    {
      query := AppendPair(query, i == 0, pairs[i..]);
      assert pairs[i..][1..] == pairs[i + 1..];
    }
    assert query + "" == query;
  }

  method AppendPair(query: string, first: bool, pairs: seq<Pair>) returns (next: string)
    requires pairs != [] && ByteValues(pairs)
    ensures next + Further(pairs[1..]) == query + (if first then QueryText(pairs) else Further(pairs))
  {
    var p := pairs[0];
    var value := Url.EncodeQueryParam(p.1);
    next := (if first then query else query + "&") + p.0 + "=" + value;
    Appended(if first then query else query + "&", p, Further(pairs[1..]));
    AppendAssociates(query, "&", QueryText(pairs));
  }

  lemma Appended(start: string, p: Pair, rest: string)
    requires IsBytes(p.1)
    ensures start + p.0 + "=" + Url.Encode(p.1) + rest == start + (PairText(p) + rest)
  {
    AppendAssociates(start, p.0, "=");
    AppendAssociates(p.0, "=", Url.Encode(p.1));
    AppendAssociates(start, p.0 + "=", Url.Encode(p.1));
    AppendAssociates(start, PairText(p), rest);
  }

  function DecodePlus(s: string): string {
    Url.Decode(s, true)
  }

  method ParseQueryText(s: string) returns (params: Params)
    ensures params == Parsed(s)
  {
    params := CollectPairs(s, '&', DecodePlus);
  }

  function Parsed(s: string): Params {
    Collect(Split(s, '&'), {}, map[], DecodePlus)
  }

  // ---- The round trip

  /** A key that is read as it is written. Unreserved keys are such. */
  predicate KeySurvives(k: string) {
    k != "" && '&' !in k && '=' !in k && Trimmed(k) && DecodePlus(k) == k
  }

  lemma {:induction false} UnreservedSurvives(k: string)
    requires k != "" && forall i :: 0 <= i < |k| ==> Url.IsUnreserved(k[i])
    ensures KeySurvives(k)
  {
    UnreservedDecodes(k);
  }

  lemma {:induction false} UnreservedDecodes(k: string)
    requires forall i :: 0 <= i < |k| ==> Url.IsUnreserved(k[i])
    ensures DecodePlus(k) == k
  {
    if k != "" {
      UnreservedDecodes(k[1..]);
      assert Url.DecodeStep(k, true) == ([k[0]], 1);
      assert k == [k[0]] + k[1..];
    }
  }

  predicate Survive(pairs: seq<Pair>) {
    forall i :: 0 <= i < |pairs| ==> KeySurvives(pairs[i].0) && IsBytes(pairs[i].1)
  }

  lemma EncodedIsClean(v: string)
    requires IsBytes(v)
    ensures var e := Url.Encode(v); '=' !in e && '&' !in e && Trimmed(e)
  {
    var e := Url.Encode(v);
    Url.EncodeAlphabet(v);
    if e != "" { assert e[0] in e && e[|e| - 1] in e; }
  }

  /** The text of a pair is one piece of the query. */
  lemma PairIsPiece(p: Pair)
    requires KeySurvives(p.0) && IsBytes(p.1)
    ensures '&' !in PairText(p) && Piece(PairText(p)) == [PairText(p)]
  {
    var (t, e) := (PairText(p), "=" + Url.Encode(p.1));
    EncodedIsClean(p.1);
    assert t[0] == p.0[0] && t[|t| - 1] == e[|e| - 1];
    TrimTrimmed(t);
  }

  /** It splits into its key and its value. */
  lemma PairSplits(k: string, e: string)
    requires k != "" && '=' !in k && Trimmed(k) && '=' !in e && Trimmed(e)
    ensures KeyValue(k + ("=" + e)) == (k, e)
  {
    var t := k + ("=" + e);
    assert t == k + ['='] + e;
    IndexOfIs(k, '=', e);
    assert t[..|k|] == k && t[|k| + 1..] == e;
    SplitLast(e, '=');
    TrimTrimmed(k);
    TrimTrimmed(e);
    assert Split(t, '=') == [k] + Split(e, '=');
  }

  lemma PairTextIs(p: Pair)
    requires KeySurvives(p.0) && IsBytes(p.1)
    ensures KeyValue(PairText(p)) == (p.0, Url.Encode(p.1))
  {
    EncodedIsClean(p.1);
    PairSplits(p.0, Url.Encode(p.1));
  }

  function Texts(pairs: seq<Pair>): seq<string>
    requires ByteValues(pairs)
  {
    seq(|pairs|, i requires 0 <= i < |pairs| => PairText(pairs[i]))
  }

  lemma {:induction false} QuerySplits(pairs: seq<Pair>)
    requires Survive(pairs)
    ensures Split(QueryText(pairs), '&') == Texts(pairs)
  {
    if pairs != [] {
      var (t, more) := (PairText(pairs[0]), pairs[1..]);
      PairIsPiece(pairs[0]);
      QuerySplits(more);
      assert Texts(pairs) == [t] + Texts(more);
      if more == [] {
        assert QueryText(pairs) == t + "" == t;
        SplitLast(t, '&');
      } else {
        SplitFirst(t, QueryText(more));
      }
    }
  }

  lemma SplitFirst(t: string, rest: string)
    requires '&' !in t
    ensures Split(t + ("&" + rest), '&') == Piece(t) + Split(rest, '&')
  {
    var s := t + ("&" + rest);
    assert s == t + ['&'] + rest;
    SplitAt(s, 0, |t|, '&');
    assert s[0..] == s && s[0..|t|] == t && s[|t| + 1..] == rest;
  }

  /** The multimap of the pairs, in which a repeated pair counts once. */
  function Gather(pairs: seq<Pair>, seen: set<Pair>, params: Params): Params {
    if pairs == [] then params
    else if pairs[0] in seen then Gather(pairs[1..], seen, params)
    else Gather(pairs[1..], seen + {pairs[0]}, Emplace(params, pairs[0].0, pairs[0].1))
  }

  function TextsOf(seen: set<Pair>): set<string> {
    set p | p in seen && IsBytes(p.1) :: PairText(p)
  }

  ghost predicate AllSurvive(seen: set<Pair>) {
    forall p :: p in seen ==> KeySurvives(p.0) && IsBytes(p.1)
  }

  lemma PairTextInjective(p: Pair, q: Pair)
    requires KeySurvives(p.0) && KeySurvives(q.0) && IsBytes(p.1) && IsBytes(q.1) && PairText(p) == PairText(q)
    ensures p == q
  {
    PairTextIs(p);
    PairTextIs(q);
    Url.DecodeEncode(p.1, true);
    Url.DecodeEncode(q.1, true);
  }

  /** A text has been seen exactly if its pair has. */
  lemma SeenAlike(seen: set<Pair>, p: Pair)
    requires AllSurvive(seen) && KeySurvives(p.0) && IsBytes(p.1)
    ensures PairText(p) in TextsOf(seen) <==> p in seen
    ensures TextsOf(seen + {p}) == TextsOf(seen) + {PairText(p)}
  {
    if PairText(p) in TextsOf(seen) {
      var q :| q in seen && IsBytes(q.1) && PairText(q) == PairText(p);
      PairTextInjective(p, q);
    }
  }

  lemma {:induction false} CollectGathers(pairs: seq<Pair>, seen: set<Pair>, params: Params)
    requires Survive(pairs) && AllSurvive(seen)
    ensures Collect(Texts(pairs), TextsOf(seen), params, DecodePlus) == Gather(pairs, seen, params)
    decreases |pairs|
  {
    if pairs != [] {
      var p := pairs[0];
      assert Texts(pairs)[1..] == Texts(pairs[1..]) && Texts(pairs)[0] == PairText(p);
      SeenAlike(seen, p);
      if p in seen {
        CollectGathers(pairs[1..], seen, params);
      } else {
        PairTextIs(p);
        Url.DecodeEncode(p.1, true);
        CollectGathers(pairs[1..], seen + {p}, Emplace(params, p.0, p.1));
      }
    }
  }

  /** What is written is read back, except that a repeated pair is read once. */
  lemma PairsComeBack(pairs: seq<Pair>)
    requires Survive(pairs)
    ensures Parsed(QueryText(pairs)) == Gather(pairs, {}, map[])
  {
    QuerySplits(pairs);
    assert TextsOf({}) == {};
    CollectGathers(pairs, {}, map[]);
  }

  // ---- Multimaps

  function KeyPairs(k: string, values: seq<string>): (r: seq<Pair>)
    ensures |r| == |values| && forall i :: 0 <= i < |r| ==> r[i] == (k, values[i])
  {
    seq(|values|, i requires 0 <= i < |values| => (k, values[i]))
  }

  /** The pairs of a multimap, key by key. */
  function PairsOf(params: Params, order: seq<string>): seq<Pair>
    requires forall i :: 0 <= i < |order| ==> order[i] in params
  {
    if order == [] then [] else KeyPairs(order[0], params[order[0]]) + PairsOf(params, order[1..])
  }

  predicate NoRepeats<T(==)>(s: seq<T>) {
    forall i, j :: 0 <= i < j < |s| ==> s[i] != s[j]
  }

  /** Every key has values, and no value twice. */
  predicate DistinctPairs(params: Params) {
    forall k :: k in params ==> params[k] != [] && NoRepeats(params[k])
  }

  /** The pairs of one key are added to the values that it has; `seen'` is what has been seen then. */
  lemma {:induction false} GatherKey(k: string, values: seq<string>, rest: seq<Pair>, seen: set<Pair>, params: Params)
    returns (seen': set<Pair>)
    requires NoRepeats(values) && values != [] && forall i :: 0 <= i < |values| ==> (k, values[i]) !in seen
    ensures forall p :: p in seen' ==> p in seen || p.0 == k
    ensures (Gather(KeyPairs(k, values) + rest, seen, params)
             == Gather(rest, seen', params[k := (if k in params then params[k] else []) + values]))
    decreases |values|
  {
    var pairs := KeyPairs(k, values) + rest;
    var next := Emplace(params, k, values[0]);
    var before := if k in params then params[k] else [];
    assert pairs[1..] == KeyPairs(k, values[1..]) + rest;
    if |values| == 1 {
      assert pairs[1..] == rest && values == [values[0]];
      seen' := seen + {(k, values[0])};
    } else {
      seen' := GatherKey(k, values[1..], rest, seen + {(k, values[0])}, next);
      assert before + [values[0]] + values[1..] == before + values;
      assert next[k := before + values] == params[k := before + values];
    }
  }

  function Restricted(params: Params, order: seq<string>): Params {
    map k | k in params && k in order :: params[k]
  }

  lemma {:induction false} GatherAll(params: Params, order: seq<string>, seen: set<Pair>, done: Params)
    requires DistinctPairs(params) && NoRepeats(order) && forall i :: 0 <= i < |order| ==> order[i] in params
    requires forall k :: k in order ==> k !in done
    requires forall p :: p in seen ==> p.0 !in order
    ensures Gather(PairsOf(params, order), seen, done) == done + Restricted(params, order)
    decreases |order|
  {
    if order == [] {
      assert done + Restricted(params, []) == done;
    } else {
      var (k, more) := (order[0], order[1..]);
      var seen' := GatherKey(k, params[k], PairsOf(params, more), seen, done);
      assert [] + params[k] == params[k];
      NotAgain(order);
      GatherAll(params, more, seen', done[k := params[k]]);
      RestrictedMore(params, order, done);
    }
  }

  lemma NotAgain(order: seq<string>)
    requires NoRepeats(order) && order != []
    ensures order[0] !in order[1..] && NoRepeats(order[1..])
  {
    assert forall i :: 0 <= i < |order| - 1 ==> order[1..][i] == order[i + 1];
  }

  lemma RestrictedMore(params: Params, order: seq<string>, done: Params)
    requires order != [] && order[0] in params && order[0] !in order[1..]
    ensures (done[order[0] := params[order[0]]] + Restricted(params, order[1..])
             == done + Restricted(params, order))
  {
    assert forall k :: k in order <==> k == order[0] || k in order[1..];
  }

  lemma RestrictedAll(params: Params, order: seq<string>)
    requires forall k :: k in order <==> k in params
    ensures map[] + Restricted(params, order) == params
  {}

  lemma {:induction false} PairsSurvive(params: Params, order: seq<string>)
    requires forall i :: 0 <= i < |order| ==> order[i] in params
    requires forall k :: k in params ==> KeySurvives(k) && forall i :: 0 <= i < |params[k]| ==> IsBytes(params[k][i])
    ensures Survive(PairsOf(params, order))
  {
    if order != [] { PairsSurvive(params, order[1..]); }
  }

  /** A multimap of distinct pairs, with keys that survive, comes back whatever the order of its keys. */
  lemma MultimapComesBack(params: Params, order: seq<string>)
    requires DistinctPairs(params) && NoRepeats(order) && (forall k :: k in order <==> k in params)
    requires forall k :: k in params ==> KeySurvives(k) && forall i :: 0 <= i < |params[k]| ==> IsBytes(params[k][i])
    ensures Survive(PairsOf(params, order)) && Parsed(QueryText(PairsOf(params, order))) == params
  {
    PairsSurvive(params, order);
    PairsComeBack(PairsOf(params, order));
    GatherAll(params, order, {}, map[]);
    RestrictedAll(params, order);
  }
}
