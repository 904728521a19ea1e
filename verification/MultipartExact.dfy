/**
 When exactly the multipart round trip holds: for every fragmentation of every body.
 */
module MultipartExact {
  import opened Text
  import opened Fields
  import opened MultipartFormat
  import opened MultipartParser
  import opened MultipartFragments
  import opened MultipartRoundTrip
  import opened MultipartClean
  import opened MultipartFilenames
  import opened MultipartLines
  import opened MultipartLateStart

  // ---- Fragments

  /** Parsers that differ in whether a body was complete before, which does not matter to what is read next. */
  ghost predicate Twins(p: Parser, q: Parser) {
    q == p.(valid := q.valid, epilogue := q.epilogue)
  }

  lemma TurnOfTwins(p: Parser, q: Parser)
    requires p.state <= 4 && p.pending != "" && Twins(p, q)
    ensures match Turn(p)
            case Stop(p', ok) => Turn(q).Stop? && Turn(q).ok == ok && Twins(p', Turn(q).p)
            case Next(p') => Turn(q).Next? && Twins(p', Turn(q).p)
  {}

  lemma {:induction false} RunOfTwins(p: Parser, q: Parser)
    requires p.state <= 4 && Twins(p, q)
    ensures Run(p).1 == Run(q).1 && Twins(Run(p).0, Run(q).0)
    decreases |p.pending|, if p.state == 1 then 1 else 0
  {
    if p.pending != "" {
      TurnOfTwins(p, q);
      RunTurns(p);
      RunTurns(q);
      if Turn(p).Next? { RunOfTwins(Turn(p).p, Turn(q).p); }
    }
  }

  lemma {:induction false} FeedAllOfTwins(p: Parser, q: Parser, fragments: seq<string>)
    requires p.state <= 4 && Twins(p, q)
    ensures FeedAll(p, fragments).1 == FeedAll(q, fragments).1
    ensures Twins(FeedAll(p, fragments).0, FeedAll(q, fragments).0)
    decreases fragments
  {
    if fragments != [] {
      RunOfTwins(More(p, fragments[0]), More(q, fragments[0]));
      FeedAllOfTwins(Feed(p, fragments[0]).0, Feed(q, fragments[0]).0, fragments[1..]);
    }
  }

  /** What was accepted adds to `before` no more than `parts`, and not `parts`. */
  ghost predicate Missed(outcome: (Parser, bool), before: seq<FormData>, parts: seq<FormData>) {
    outcome.1 ==> before <= outcome.0.received && Unlike(outcome.0.received, before, parts, true)
  }

  lemma MissedSoFar(outcome: (Parser, bool), before: seq<FormData>, parts: seq<FormData>)
    requires Misses(outcome, before, parts, true)
    ensures Missed(outcome, before, parts)
  {
    if outcome.1 && outcome.0.valid {
      var m: nat :| Early(outcome.0, before, parts, true, m);
    }
  }

  /** Feeding in fragments what misses the parts in one run misses them too. */
  lemma {:induction false} FragmentsMiss(p: Parser, fragments: seq<string>, parts: seq<FormData>)
    requires 1 <= p.state <= 4 && fragments != [] && parts != [] && Ready(p, parts)
    requires Misses(Feed(p, Concat(fragments)), p.received, parts, true)
    ensures Missed(FeedAll(p, fragments), p.received, parts)
    decreases |fragments|, 0
  {
    if FeedAll(p, fragments).1 {
      var k := FragmentsAgree(p, fragments, false);
      var whole := Feed(p, Concat(fragments));
      if k == |fragments| {
        MissedSoFar(whole, p.received, parts);
      } else {
        var xs, ys := fragments[..k], fragments[k..];
        var m: nat :| Early(whole.0, p.received, parts, true, m);
        EarlyMisses(p, FeedAll(p, xs).0, ys, parts, m);
        FeedAllAppend(p, xs, ys);
        Rejoin(fragments, k);
      }
    }
  }

  /** Behind an early closing delimiter. */
  lemma {:induction false} EarlyMisses(p: Parser, q: Parser, fragments: seq<string>, parts: seq<FormData>, m: nat)
    requires 1 <= p.state <= 4 && parts != [] && Ready(p, parts)
    requires q.state == 4 && q.valid && q.pending == "" && q.lines == p.lines && q.boundary == p.boundary
    requires p.received <= q.received && fragments != []
    requires Early(q.(epilogue := q.epilogue + Concat(fragments)), p.received, parts, true, m)
    ensures Missed(FeedAll(q, fragments), p.received, parts)
    decreases |fragments|, 2
  {
    var y := Concat(fragments);
    if m == |parts| {
      assert "" + y == y;
      SuffixOfCrlf(q.epilogue, y);
      AfterClosing(q, fragments);
    } else if FeedAll(q, fragments).1 {
      var more, r := parts[m..], q.(valid := false);
      var u, c :| Inner(u + (q.epilogue + y), c, q.boundary, more);
      AppendAssociates(u, q.epilogue, y);
      FeedAllOfTwins(q, r, fragments);
      Continued(r, c, u + q.epilogue, fragments, more);
      AddUp(p.received, q.received, FeedAll(q, fragments).0.received, parts, m);
    }
  }

  lemma AddUp(a: seq<FormData>, b: seq<FormData>, c: seq<FormData>, parts: seq<FormData>, m: nat)
    requires a <= b <= c && m < |parts| && |b| <= |a| + m && Unlike(c, b, parts[m..], true)
    ensures a <= c && Unlike(c, a, parts, true)
  {
    assert c == b + c[|b|..];
    assert (a + parts)[|a| + m..] == parts[m..];
  }

  /** State 4 finds anything that follows an early closing delimiter. */
  lemma {:induction false} Continued(p: Parser, c: string, u: string, fragments: seq<string>, parts: seq<FormData>)
    requires p.state == 4 && p.pending == "" && parts != [] && fragments != [] && Ready(p, parts)
    requires Inner(u + Concat(fragments), c, p.boundary, parts)
    ensures Missed(FeedAll(p, fragments), p.received, parts)
    decreases |fragments|, 1
  {
    var t := Concat(fragments);
    var q := p.(pending := t);
    assert "" + t == t;
    RunContinued(q, c, u, parts);
    assert Feed(p, t) == Run(q);
    FragmentsMiss(p, fragments, parts);
  }

  lemma RunContinued(p: Parser, c: string, u: string, parts: seq<FormData>)
    requires p.state == 4 && parts != [] && Ready(p, parts) && Inner(u + p.pending, c, p.boundary, parts)
    ensures Misses(Run(p), p.received, parts, true)
  {
    var t := p.pending;
    if |t| < 2 {
      if t != "" { RunTurns(p); }
    } else {
      var start, next := t[..2], t[2..];
      assert t == start + next;
      AppendAssociates(u, start, next);
      BoundaryTurn(p);
      if start == CRLF {
        assert "" + CRLF == CRLF;
        StartInContent(p.(state := 1, pending := next), c, parts, u, "", true);
      } else if start == DASH {
        assert Inner((u + start) + next, c, p.boundary, parts) && parts[0..] == parts;
        assert Early(Run(p).0, p.received, parts, true, 0);
      }
    }
  }

  // ---- The whole body

  /** State 0 drops everything up to a delimiter line that one fragment holds. */
  lemma StateZero(p: Parser, x: string)
    requires p == Start(p.boundary)
    ensures var d := DashBoundaryCrlf(p.boundary);
            var i := Find(x, d);
            Feed(p, x) == if i < |x| then Feed(p.(state := 1), x[i + |d|..]) else (p, true)
  {
    var d := DashBoundaryCrlf(p.boundary);
    var i := Find(x, d);
    FindSpec(x, d);
    if i < |x| {
      CutTwice(x, i, i + |d|);
      AppendAssociates(x[..i], d, x[i + |d|..]);
      FirstLine(p, x, x[..i], x[i + |d|..]);
    } else {
      assert "" + x == x && x[i..] == "";
      if x != "" { RunTurns(p.(pending := x)); }
    }
  }

  /** Where the parser starts: behind the first delimiter line that stands in one fragment, if there is one. */
  lemma {:induction false} FirstDelimiter(p: Parser, fragments: seq<string>)
    returns (found: bool, u: string, rest: seq<string>)
    requires p == Start(p.boundary)
    ensures !found ==> FeedAll(p, fragments) == (p, true)
    ensures found ==> rest != [] && FeedAll(p, fragments) == FeedAll(p.(state := 1), rest)
    ensures found ==> Concat(fragments) == u + DashBoundaryCrlf(p.boundary) + Concat(rest)
    ensures found && u == "" ==> |DashBoundaryCrlf(p.boundary)| <= |FirstFragment(fragments)|
    decreases fragments
  {
    found, u, rest := false, "", [];
    if fragments != [] {
      var d, x, more := DashBoundaryCrlf(p.boundary), fragments[0], fragments[1..];
      var i := Find(x, d);
      StateZero(p, x);
      if i < |x| {
        found, u, rest := true, x[..i], [x[i + |d|..]] + more;
        FindSpec(x, d);
        CutTwice(x, i, i + |d|);
        AppendAssociates(u + d, x[i + |d|..], Concat(more));
        FeedFirst(p.(state := 1), x[i + |d|..], more);
      } else {
        found, u, rest := FirstDelimiter(p, more);
        if found {
          AppendThree(x, u, d, Concat(rest));
          AppendAssociates(x + u, d, Concat(rest));
          u := x + u;
        }
      }
    }
  }

  /** A parser that starts behind a later line that looks like the delimiter does not report the parts. */
  lemma LateStart(p: Parser, fragments: seq<string>, u: string, parts: seq<FormData>)
    requires p == Start(p.boundary).(state := 1) && fragments != [] && u != ""
    requires parts != [] && LegalBoundary(p.boundary) && AllWellFormed(parts, p.boundary)
    requires u + DashBoundaryCrlf(p.boundary) + Concat(fragments) == Body(parts, p.boundary)
    ensures FeedAll(p, fragments).1 ==> FeedAll(p, fragments).0.received != parts
  {
    var b, w := p.boundary, Concat(fragments);
    var mark, q := DashBoundary(b), More(p, w);
    BodyIsTail(parts, b);
    BoundaryIsOneLine(b);
    OneLineUnbroken(mark);
    var v := Peel(mark, Tail(parts, b), u, mark, w);
    assert q.pending == w && [] + parts == parts;
    StartInTail(q, parts, v, mark, true);
    FragmentsMiss(p, fragments, parts);
  }

  /**
   For parts whose header lines fit: the round trip holds exactly if there is a part, the first
   fragment that is not empty holds the whole first delimiter line, and every part has a name and a
   filename without delimiters and line breaks, a trimmed type of one line, and a content without
   the delimiter. (If the first delimiter line is cut, filenames are taken to be clean.)
   */
  lemma RoundTripExactly(parts: seq<FormData>, boundary: string, fragments: seq<string>)
    requires LegalBoundary(boundary) && (forall i :: 0 <= i < |parts| ==> Fits(parts[i]))
    requires Concat(fragments) == Body(parts, boundary)
    requires |DashBoundaryCrlf(boundary)| <= |FirstFragment(fragments)| || FilenamesClean(parts)
    ensures Accepts(boundary, fragments, parts)
       <==> && parts != []
            && |DashBoundaryCrlf(boundary)| <= |FirstFragment(fragments)|
            && AllClean(parts, boundary) && FilenamesClean(parts)
  {
    ReportedIsClean(boundary, fragments);
    var p := Start(boundary);
    if parts == [] {
      var found, u, rest := FirstDelimiter(p, fragments);
      if found { NothingComes(p.(state := 1), rest, u); }
    } else if AllClean(parts, boundary) {
      if !FilenamesClean(parts) {
        FilenameIsLost(parts, boundary, fragments);
      } else if |DashBoundaryCrlf(boundary)| <= |FirstFragment(fragments)| {
        RoundTrip(parts, boundary, fragments);
      } else {
        var found, u, rest := FirstDelimiter(p, fragments);
        if found { LateStart(p.(state := 1), rest, u, parts); }
      }
    }
  }

  lemma FilenameIsLost(parts: seq<FormData>, boundary: string, fragments: seq<string>)
    requires LegalBoundary(boundary) && AllFit(parts, boundary) && !FilenamesClean(parts)
    requires Concat(fragments) == Body(parts, boundary)
    requires |DashBoundaryCrlf(boundary)| <= |FirstFragment(fragments)|
    ensures !Accepts(boundary, fragments, parts)
  {
    var rest := StartsWhole(parts, boundary, fragments);
    FragmentsLoseFilename(Start(boundary).(state := 1), rest, parts);
  }

  /** An empty list of parts is written as a closing line, which is never read as one. */
  lemma NothingComes(p: Parser, fragments: seq<string>, u: string)
    requires p == Start(p.boundary).(state := 1) && fragments != [] && LegalBoundary(p.boundary)
    requires u + DashBoundaryCrlf(p.boundary) + Concat(fragments) == Body([], p.boundary)
    ensures FeedAll(p, fragments).1 ==> !FeedAll(p, fragments).0.valid
  {
    var b, w := p.boundary, Concat(fragments);
    var line := DashBoundary(b) + DASH;
    DelimiterLine(b, []);
    OneLineUnbroken(line);
    BoundaryIsOneLine(b);
    assert Body([], b) == line + CRLF + "";
    var _ := Peel(line, "", u, DashBoundary(b), w);
    assert w == "" && Feed(p, w) == (p, true);
    if FeedAll(p, fragments).1 {
      var k := FragmentsAgree(p, fragments, false);
    }
  }
}
