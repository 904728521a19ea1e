/**
 A parser that has read a closing delimiter is valid and stays so, but it goes on: when exactly what
 follows adds a part.
 */
module MultipartReopened {
  import opened Text
  import opened Fields
  import opened MultipartFormat
  import opened MultipartParser
  import opened MultipartFragments
  import opened MultipartRoundTrip
  import opened MultipartLateStart
  import opened MultipartExact

  /** The line break of a delimiter line and a header block, with a first line that passes the length check. */
  predicate OpensPart(w: string) {
    && StartsWith(w, CRLF)
    && Find(w[2..], CRLF) <= HEADER_MAX_LENGTH
    && ReadHeaders(ApplyLine, NO_FILE, w[2..]).HeadersEnd?
  }

  lemma {:induction false} RunReportsMore(p: Parser)
    requires p.state <= 4
    ensures |p.received| <= |Run(p).0.received|
    decreases |p.pending|, if p.state == 1 then 1 else 0
  {
    if p.pending != "" {
      RunTurns(p);
      if Turn(p).Next? { RunReportsMore(Turn(p).p); }
    }
  }

  lemma {:induction false} FeedAllReportsMore(p: Parser, fragments: seq<string>)
    requires p.state <= 4
    ensures |p.received| <= |FeedAll(p, fragments).0.received|
    decreases fragments
  {
    if fragments != [] {
      RunReportsMore(More(p, fragments[0]));
      FeedAllReportsMore(Feed(p, fragments[0]).0, fragments[1..]);
    }
  }

  /** From state 4, behind the line break. */
  lemma RunReopens(p: Parser)
    requires p.state == 4 && p.lines == ApplyLine && StartsWith(p.pending, CRLF)
    ensures var q := Run(p).0;
            if OpensPart(p.pending) then |p.received| < |q.received|
            else q.received == p.received && (!p.valid ==> !q.valid)
    ensures Run(p).1 ==> (OpensPart(p.pending) <==> ReadHeaders(ApplyLine, NO_FILE, p.pending[2..]).HeadersEnd?)
  {
    var t := p.pending[2..];
    BoundaryTurn(p);
    if t != "" {
      var q1 := p.(state := 1, pending := t);
      var q2 := q1.(state := 2, file := NO_FILE);
      RunTurns(q1);
      RunTurns(q2);
      if OpensPart(p.pending) { RunReportsMore(Turn(q2).p); }
    }
  }

  /**
   One more fragment behind a closing delimiter reports nothing new, exactly if it does not open a
   part; it leaves the parser valid if it is accepted.
   */
  lemma OneMoreFragment(p: Parser, w: string)
    requires p.state == 4 && p.valid && p.pending == "" && p.lines == ApplyLine
    ensures Feed(p, w).0.received == p.received <==> !OpensPart(w)
  {
    var q := p.(pending := w);
    assert "" + w == w;
    if |w| < 2 {
      if w != "" { RunTurns(q); }
    } else {
      BoundaryTurn(q);
      if StartsWith(w, CRLF) { RunReopens(q); }
    }
  }

  /** A whole header block behind a closing delimiter adds its part, and the parser stays valid. */
  lemma HeadersReopen(p: Parser, part: FormData)
    requires p.state == 4 && p.valid && p.pending == "" && p.lines == ApplyLine && WellFormed(part, p.boundary)
    ensures var (q, ok) := Feed(p, CRLF + HeaderLines(part));
            ok && q.valid && q.state == 3 && q.received == p.received + [part.(content := "")]
  {
    var h := HeaderLines(part);
    var w := CRLF + h;
    assert "" + w == w && w[..2] == CRLF && w[2..] == h && h + "" == h && h != "";
    var q0, q1 := p.(pending := w), p.(state := 1, pending := h);
    var q2 := q1.(state := 2, file := NO_FILE);
    BoundaryTurn(q0);
    RunTurns(q1);
    HeaderTurn(q2, part, "");
    RunTurns(q2);
  }

  /**
   Fragments that add no part, when `held`, less than two bytes, is held back: the first two bytes
   are the dashes of one more closing delimiter, with which the rest of their fragment is dropped,
   or they are a line break and the joined fragments do not go on with a header block, or neither.
   */
  predicate Silent(held: string, fragments: seq<string>)
    decreases |fragments|
  {
    if fragments == [] then true
    else
      var t := held + fragments[0];
      if |t| < 2 then Silent(t, fragments[1..])
      else if t[..2] == DASH then Silent("", fragments[1..])
      else if t[..2] == CRLF then !ReadHeaders(ApplyLine, NO_FILE, (t + Concat(fragments[1..]))[2..]).HeadersEnd?
      else true
  }

  /** Any accepted fragments behind a closing delimiter report nothing new exactly if they are silent. */
  lemma {:induction false} MoreFragments(p: Parser, fragments: seq<string>)
    requires p.state == 4 && |p.pending| < 2 && p.lines == ApplyLine
    requires FeedAll(p, fragments).1
    ensures FeedAll(p, fragments).0.received == p.received <==> Silent(p.pending, fragments)
    decreases |fragments|
  {
    if fragments != [] {
      var t, rest := p.pending + fragments[0], fragments[1..];
      var q := p.(pending := t);
      if |t| < 2 {
        if t != "" { RunTurns(q); }
        MoreFragments(q, rest);
      } else {
        BoundaryTurn(q);
        if t[..2] == CRLF {
          FragmentsReopen(p, fragments);
        } else if t[..2] == DASH {
          MoreFragments(Run(q).0, rest);
        } else {
          StuckFragments(q, rest);
        }
      }
    }
  }

  /** Other bytes are kept for ever. */
  lemma {:induction false} StuckFragments(p: Parser, fragments: seq<string>)
    requires p.state == 4 && 2 <= |p.pending| && p.pending[..2] != CRLF && p.pending[..2] != DASH
    ensures FeedAll(p, fragments).0.received == p.received
    decreases |fragments|
  {
    if fragments != [] {
      var q := More(p, fragments[0]);
      CutFront(p.pending, fragments[0], 2);
      BoundaryTurn(q);
      StuckFragments(q, fragments[1..]);
    }
  }

  lemma FragmentsReopen(p: Parser, fragments: seq<string>)
    requires p.state == 4 && p.lines == ApplyLine && fragments != [] && FeedAll(p, fragments).1
    requires StartsWith(p.pending + fragments[0], CRLF)
    ensures var s := p.pending + fragments[0] + Concat(fragments[1..]);
            FeedAll(p, fragments).0.received == p.received <==> !ReadHeaders(ApplyLine, NO_FILE, s[2..]).HeadersEnd?
  {
    var q, y, s := p.(valid := false), Concat(fragments[1..]), p.pending + Concat(fragments);
    AppendAssociates(p.pending, fragments[0], y);
    CutFront(p.pending + fragments[0], y, 2);
    FeedAllOfTwins(p, q, fragments);
    RunReopens(q.(pending := s));
    ReopenedRun(q, fragments, s);
  }

  lemma ReopenedRun(p: Parser, fragments: seq<string>, s: string)
    requires p.state == 4 && !p.valid && fragments != [] && FeedAll(p, fragments).1
    requires s == p.pending + Concat(fragments)
    ensures var whole := Run(p.(pending := s));
            if whole.0.valid then |whole.0.received| <= |FeedAll(p, fragments).0.received|
            else whole.1 && FeedAll(p, fragments).0.received == whole.0.received
    ensures Run(p.(pending := s)).1
  {
    var k := FragmentsAgree(p, fragments, false);
    assert Feed(p, Concat(fragments)) == Run(p.(pending := s));
    if k < |fragments| {
      var xs, ys := fragments[..k], fragments[k..];
      Rejoin(fragments, k);
      FeedAllAppend(p, xs, ys);
      FeedAllReportsMore(FeedAll(p, xs).0, ys);
    }
  }
}
