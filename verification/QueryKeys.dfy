/** Keys are written as they are: which of them come back. */
module QueryKeys {
  import opened Text
  import opened Fields
  import opened Query
  import MultipartHeaders
  import Url

  // ---- Splitting a text in two

  lemma {:induction false} SplitJoin(a: string, d: char, b: string)
    ensures Split(a + ([d] + b), d) == Split(a, d) + Split(b, d)
    decreases |a|
  {
    var s, i := a + ([d] + b), IndexOf(a, d);
    IndexOfFirst(a, d);
    if i < |a| {
      var head, tail := a[..i], a[i + 1..];
      assert a == head + [d] + tail;
      assert s == head + [d] + (tail + ([d] + b));
      SplitAtFirst(head, d, tail);
      SplitAtFirst(head, d, tail + ([d] + b));
      SplitJoin(tail, d, b);
      AppendAssociates(Piece(head), Split(tail, d), Split(b, d));
    } else {
      assert a[..|a|] == a;
      AppendAssociates(a, [d], b);
      SplitAtFirst(a, d, b);
      SplitLast(a, d);
    }
  }

  lemma SplitAtFirst(head: string, d: char, tail: string)
    requires d !in head
    ensures Split(head + [d] + tail, d) == Piece(head) + Split(tail, d)
  {
    var s := head + [d] + tail;
    IndexOfIs(head, d, tail);
    assert s[..|head|] == head && s[|head| + 1..] == tail;
  }

  // ---- What a pair can be read as

  /** A piece of the text of a pair with the key `k`: its own key is shorter, or the key is lost, or it is `k`. */
  predicate ReadAs(kv: (string, string), k: string, e: string) {
    || kv == (e, "")
    || |kv.0| < |k|
    || (kv.0 == k && k != "" && '&' !in k && '=' !in k && Trimmed(k))
  }

  lemma KeyOfPiece(piece: string)
    ensures |KeyValue(piece).0| <= |piece|
  {
    MultipartHeaders.SplitPieces(piece, '=');
  }

  lemma TrimSame(s: string)
    ensures |Trim(s)| <= |s| && Trimmed(Trim(s)) && (|Trim(s)| == |s| ==> Trim(s) == s)
  {
    MultipartHeaders.TrimShrinks(s);
    MultipartHeaders.TrimRightShrinks(TrimLeft(s));
    if |Trim(s)| == |s| && s != "" && IsBlank(s[0]) {
      MultipartHeaders.TrimLeftShrinks(s[1..]);
    }
  }

  lemma {:induction false} TrimBefore(k: string, t: string)
    requires t != "" && !IsBlank(t[0]) && !IsBlank(t[|t| - 1])
    ensures Trim(k + t) == TrimLeft(k) + t
  {
    if k != "" && IsBlank(k[0]) {
      assert (k + t)[1..] == k[1..] + t;
      TrimBefore(k[1..], t);
    } else if k == "" {
      assert k + t == t;
    }
  }

  lemma ShortPieces(s: string, d: char)
    requires d in s
    ensures forall q :: q in Split(s, d) ==> |q| < |s|
  {
    var i := IndexOf(s, d);
    IndexOfFirst(s, d);
    var head, tail := s[..i], s[i + 1..];
    assert s == head + [d] + tail;
    SplitAtFirst(head, d, tail);
    MultipartHeaders.TrimShrinks(head);
    MultipartHeaders.SplitPieces(tail, d);
  }

  /** Without `&` the text of a pair is one piece. */
  lemma OnePiece(k: string, e: string)
    requires '&' !in k && '=' !in e && Trimmed(e)
    ensures ReadAs(KeyValue(Trim(k + ("=" + e))), k, e)
  {
    var left := TrimLeft(k);
    MultipartHeaders.TrimLeftShrinks(k);
    TrimBefore(k, "=" + e);
    SplitJoin(left, '=', e);
    SplitLast(e, '=');
    TrimTrimmed(e);
    if '=' in left {
      ShortPieces(left, '=');
    } else {
      SplitLast(left, '=');
      TrimSame(left);
      TrimSame(k);
      if |left| == |k| && k != "" && IsBlank(k[0]) { MultipartHeaders.TrimLeftShrinks(k[1..]); }
    }
  }

  lemma {:induction false} PiecesRead(k: string, e: string)
    requires '&' !in e && '=' !in e && Trimmed(e)
    ensures forall q :: q in Split(k + ("=" + e), '&') ==> ReadAs(KeyValue(q), k, e)
    decreases |k|
  {
    var t, i := k + ("=" + e), IndexOf(k, '&');
    IndexOfFirst(k, '&');
    if i < |k| {
      var head, tail := k[..i], k[i + 1..];
      assert t == head + ['&'] + (tail + ("=" + e));
      SplitAtFirst(head, '&', tail + ("=" + e));
      TrimSame(head);
      KeyOfPiece(Trim(head));
      PiecesRead(tail, e);
    } else {
      assert k[..|k|] == k;
      SplitLast(t, '&');
      OnePiece(k, e);
    }
  }

  lemma SurvivorComesBack(k: string, v: string)
    requires KeySurvives(k) && IsBytes(v)
    ensures Parsed(QueryText([(k, v)])) == map[k := [v]]
  {
    var pairs := [(k, v)];
    PairsComeBack(pairs);
    MultipartHeaders.EmplaceNew(map[], k, v);
    assert pairs[1..] == [];
  }

  lemma NothingComesBack()
    ensures Parsed("=") == map[]
  {
    SplitLast("=", '&');
    TrimTrimmed("=");
    SplitAtFirst("", '=', "");
    assert "" + ['='] + "" == "=";
  }

  lemma LostKey(k: string, v: string)
    requires !KeySurvives(k) && IsBytes(v) && !(k == "" && v == "")
    ensures Parsed(PairText((k, v))) != map[k := [v]]
  {
    var e, pieces := Url.Encode(v), Split(PairText((k, v)), '&');
    var P := (k', v') => !(k' == k && v' == v);
    EncodedIsClean(v);
    PiecesRead(k, e);
    Url.DecodeEncode(v, true);
    forall q | q in pieces ensures P(DecodePlus(KeyValue(q).0), DecodePlus(KeyValue(q).1)) {
      Url.DecodeShrinks(KeyValue(q).0, true);
    }
    MultipartHeaders.CollectHolds(pieces, {}, map[], DecodePlus, P);
    assert !P(k, map[k := [v]][k][0]);
  }

  /** A pair comes back from its query exactly if its key survives. */
  lemma PairComesBack(k: string, v: string)
    requires IsBytes(v)
    ensures Parsed(QueryText([(k, v)])) == map[k := [v]] <==> KeySurvives(k)
  {
    var t := PairText((k, v));
    assert QueryText([(k, v)]) == t + "" == t;
    if KeySurvives(k) {
      SurvivorComesBack(k, v);
    } else if k == "" && v == "" {
      assert t == "=";
      NothingComesBack();
      assert k in map[k := [v]];
    } else {
      LostKey(k, v);
    }
  }
}
