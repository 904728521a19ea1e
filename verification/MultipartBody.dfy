/** The body state delivers exactly the stream up to the first delimiter. */
module MultipartBody {
  import opened Text
  import opened MultipartFormat
  import opened MultipartParser
  import opened MultipartFragments

  /** The first `n` parts can no longer change. */
  ghost predicate Frozen(p: Parser, n: nat) {
    p.state <= 4 && n <= |p.received| && (p.state == 3 ==> n < |p.received|)
  }

  lemma AddKeepsFirst(received: seq<FormData>, content: string, n: nat)
    requires n < |received|
    ensures |AddContent(received, content)| == |received| && AddContent(received, content)[..n] == received[..n]
  {}

  lemma AppendKeepsFirst(received: seq<FormData>, file: FormData, n: nat)
    requires n <= |received|
    ensures (received + [file])[..n] == received[..n]
  {}

  lemma BodyKeepsFrozen(p: Parser, n: nat)
    requires p.state == 3 && Frozen(p, n)
    ensures Frozen(BodyStep(p).p, n) && BodyStep(p).p.received[..n] == p.received[..n]
  {
    var delimiter := CrlfDashBoundary(p.boundary);
    if |delimiter| <= |p.pending| {
      AddKeepsFirst(p.received, ScanBody(delimiter, p.pending).0, n);
    }
  }

  lemma TurnKeepsFrozen(p: Parser, n: nat)
    requires Frozen(p, n) && p.pending != ""
    ensures Frozen(Turn(p).p, n) && Turn(p).p.received[..n] == p.received[..n]
  {
    if p.state == 3 {
      BodyKeepsFrozen(p, n);
    } else if p.state == 2 {
      match ReadHeaders(p.lines, p.file, p.pending)
      case HeadersEnd(file, _) => AppendKeepsFirst(p.received, file, n);
      case HeadersMore(_, _) =>
      case HeadersBad =>
    }
  }

  lemma {:induction false} FrozenStays(p: Parser, n: nat)
    requires Frozen(p, n)
    ensures Frozen(Run(p).0, n) && Run(p).0.received[..n] == p.received[..n]
    decreases |p.pending|, if p.state == 1 then 1 else 0
  {
    if p.pending != "" {
      var step := Turn(p);
      RunTurns(p);
      TurnKeepsFrozen(p, n);
      if step.Next? { FrozenStays(step.p, n); }
    }
  }

  lemma {:induction false} FrozenStaysAll(p: Parser, fragments: seq<string>, n: nat)
    requires Frozen(p, n)
    ensures Frozen(FeedAll(p, fragments).0, n) && FeedAll(p, fragments).0.received[..n] == p.received[..n]
    decreases fragments
  {
    if fragments != [] {
      FrozenStays(More(p, fragments[0]), n);
      FrozenStaysAll(Feed(p, fragments[0]).0, fragments[1..], n);
    }
  }

  /** In the body state, with at most a delimiter's length held back. */
  ghost predicate InBody(p: Parser) {
    p.state == 3 && p.received != [] && |p.pending| <= |CrlfDashBoundary(p.boundary)|
  }

  /** One fragment: the content it completes, or the state in which the next one finds the parser. */
  lemma BodyFragment(p: Parser, x: string)
    requires InBody(p)
    ensures var (q, ok) := Feed(p, x);
            var t, d := p.pending + x, CrlfDashBoundary(p.boundary);
            var i := Find(t, d);
            if i < |t| then
              Frozen(q, |p.received|) && q.received[..|p.received|] == AddContent(p.received, t[..i])
            else
              var h := if |t| < |d| then |t| else |d|;
              ok && InBody(q) && q == p.(received := AddContent(p.received, t[..|t| - h]), pending := t[|t| - h..])
  {
    var r := More(p, x);
    var t, d := r.pending, CrlfDashBoundary(p.boundary);
    var i := Find(t, d);
    if t != "" { RunTurns(r); }
    if i < |t| {
      var q := Turn(r).p;
      assert q == r.(received := AddContent(p.received, t[..i]), pending := t[i + |d|..], state := 4);
      FrozenStays(q, |p.received|);
      assert q.received[..|p.received|] == q.received;
    } else if |t| < |d| {
      AddNothing(p.received);
      assert t[..0] == "" && t[0..] == t;
    }
  }

  /** What `outcome` must look like after the stream `s` was fed to `p`. */
  ghost predicate Delivered(p: Parser, s: string, outcome: (Parser, bool)) {
    var (q, ok) := outcome;
    var i := Find(s, CrlfDashBoundary(p.boundary));
    if i < |s| then
      |p.received| <= |q.received| && q.received[..|p.received|] == AddContent(p.received, s[..i])
    else
      && ok && InBody(q) && |q.pending| <= |s| && q.pending == s[|s| - |q.pending|..]
      && q.received == AddContent(p.received, s[..|s| - |q.pending|])
  }

  lemma Cut(u: string, v: string, k: nat)
    requires k <= |v|
    ensures (u + v)[..|u| + k] == u + v[..k] && (u + v)[|u| + k..] == v[k..]
  {}

  lemma FindLater(u: string, h: string, y: string, d: string)
    requires d != "" && Find(u + h, d) == |u + h| && (u == "" || |h| == |d|)
    ensures Find(u + (h + y), d) == |u| + Find(h + y, d)
  {
    FindSpec(u + h, d);
    AppendAssociates(u, h, y);
    forall k | 0 <= k < |u| ensures !OccursAt(u + (h + y), d, k) {
      OccursInPrefix(u + h, y, d, k);
    }
    FindAfter(u, h + y, d);
  }

  /** Holding back `h` after `u` was delivered, and going on with `y`. */
  lemma DeliveredLater(p: Parser, q: Parser, u: string, h: string, y: string, outcome: (Parser, bool))
    requires p.received != [] && q.boundary == p.boundary && q.received == AddContent(p.received, u)
    requires Find(u + h, CrlfDashBoundary(p.boundary)) == |u + h|
    requires u == "" || |h| == |CrlfDashBoundary(p.boundary)|
    requires Delivered(q, h + y, outcome)
    ensures Delivered(p, u + (h + y), outcome)
  {
    var d, v := CrlfDashBoundary(p.boundary), h + y;
    FindLater(u, h, y, d);
    if Find(v, d) < |v| {
      Cut(u, v, Find(v, d));
      AddContentTwice(p.received, u, v[..Find(v, d)]);
    } else {
      var k := |v| - |outcome.0.pending|;
      Cut(u, v, k);
      AddContentTwice(p.received, u, v[..k]);
    }
  }

  /**
   For every stream and every fragmentation: if the delimiter occurs in the stream, the
   current part ends up with exactly the bytes before its first occurrence, whatever
   follows; if not, every call succeeds and all but the last bytes, at most a delimiter's
   length, have been delivered.
   */
  lemma {:induction false} BodyStream(p: Parser, fragments: seq<string>)
    requires InBody(p)
    ensures Delivered(p, p.pending + Concat(fragments), FeedAll(p, fragments))
    decreases fragments
  {
    var d := CrlfDashBoundary(p.boundary);
    AddNothing(p.received);
    if fragments == [] {
      var s := p.pending;
      assert s + "" == s && s[..0] == "" && s[0..] == s;
    } else {
      var x, rest := fragments[0], fragments[1..];
      var t, y := p.pending + x, Concat(rest);
      AppendAssociates(p.pending, x, y);
      BodyFragment(p, x);
      var (q, ok) := Feed(p, x);
      if Find(t, d) < |t| {
        FindInPrefix(t, y, d);
        CutFront(t, y, Find(t, d));
        FrozenStaysAll(q, rest, |p.received|);
      } else {
        var u := t[..|t| - |q.pending|];
        Rejoin(t, |u|);
        AppendAssociates(u, q.pending, y);
        BodyStream(q, rest);
        DeliveredLater(p, q, u, q.pending, y, FeedAll(q, rest));
      }
    }
  }
}
