/**
 A parser that has lost the beginning of the first delimiter line starts at a later place that
 looks like one. From none of these places can it report the parts.
 */
module MultipartLateStart {
  import opened Text
  import opened Fields
  import opened MultipartFormat
  import opened MultipartParser
  import opened MultipartFragments
  import opened MultipartRoundTrip
  import opened MultipartLines

  // ---- What a run reports

  /**
   What is behind a closing delimiter: the rest of a body from somewhere behind the start of
   the content of the first part of `more`, or, if none is left, the last line break.
   */
  ghost predicate Left(epilogue: string, boundary: string, more: seq<FormData>) {
    if more == [] then epilogue == CRLF
    else exists u, c :: Inner(u + epilogue, c, boundary, more)
  }

  ghost predicate Inner(t: string, c: string, boundary: string, parts: seq<FormData>)
    requires parts != []
  {
    var d := CrlfDashBoundary(boundary);
    t == c + d + After(parts[1..], boundary) && !Contains(c, d) && |c| + 3 <= |parts[0].content|
  }

  /**
   A run that succeeds adds no more than `parts` to `before`, also when it meets an early
   closing delimiter and goes on behind it; and if it is `strict`, it does not add `parts`.
   */
  ghost predicate Misses(outcome: (Parser, bool), before: seq<FormData>, parts: seq<FormData>, strict: bool) {
    var (q, ok) := outcome;
    ok ==>
      && before <= q.received
      && (!q.valid ==> Unlike(q.received, before, parts, strict))
      && (q.valid ==> q.state == 4 && q.pending == "" && exists m :: Early(q, before, parts, strict, m))
  }

  ghost predicate Unlike(received: seq<FormData>, before: seq<FormData>, parts: seq<FormData>, strict: bool) {
    |received| <= |before| + |parts| && (strict ==> received != before + parts)
  }

  /** The parser stands behind a closing delimiter in the content of part `m`. */
  ghost predicate Early(q: Parser, before: seq<FormData>, parts: seq<FormData>, strict: bool, m: nat) {
    && m <= |parts| && |q.received| <= |before| + m
    && Left(q.epilogue, q.boundary, parts[m..])
    && (strict && m == |parts| ==> q.received != before + parts)
  }

  lemma FinishedMisses(outcome: (Parser, bool), before: seq<FormData>, parts: seq<FormData>, strict: bool,
                       received: seq<FormData>)
    requires Finished(outcome, received) && before <= received && Unlike(received, before, parts, strict)
    ensures Misses(outcome, before, parts, strict)
  {
    assert Early(outcome.0, before, parts, strict, |parts|);
  }

  lemma OtherFirst(outcome: (Parser, bool), before: seq<FormData>, f: FormData, parts: seq<FormData>, strict: bool)
    requires parts != [] && Finished(outcome, before + [f] + parts[1..])
    requires strict ==> f != parts[0]
    ensures Misses(outcome, before, parts, strict)
  {
    var received := before + [f] + parts[1..];
    assert received[|before|] == f;
    assert strict ==> (before + parts)[|before|] != f;
    FinishedMisses(outcome, before, parts, strict, received);
  }

  /** With a part more to report, fewer is enough to miss. */
  lemma Fewer(outcome: (Parser, bool), before: seq<FormData>, parts: seq<FormData>, strict: bool)
    requires parts != [] && Misses(outcome, before, parts[1..], false)
    ensures Misses(outcome, before, parts, strict)
  {
    var (q, ok) := outcome;
    if ok && q.valid {
      var m: nat :| Early(q, before, parts[1..], false, m);
      assert parts[1..][m..] == parts[m + 1..];
      assert Early(q, before, parts, strict, m + 1);
    }
  }

  /** A part was added before. */
  lemma OneAdded(outcome: (Parser, bool), before: seq<FormData>, f: FormData, parts: seq<FormData>, strict: bool)
    requires parts != [] && Misses(outcome, before + [f], parts[1..], strict)
    ensures Misses(outcome, before, parts, strict)
  {
    var (q, ok) := outcome;
    if ok {
      assert before + parts == before + [parts[0]] + parts[1..];
      assert q.received == before + parts ==> q.received[..|before| + 1] == before + [parts[0]];
      if q.valid {
        var m: nat :| Early(q, before + [f], parts[1..], strict, m);
        assert parts[1..][m..] == parts[m + 1..];
        assert Early(q, before, parts, strict, m + 1);
      }
    }
  }

  // ---- Runs from inside a content

  /** What a run over the middle of a body needs to know of its parser. */
  ghost predicate Ready(p: Parser, parts: seq<FormData>) {
    !p.valid && p.lines == ApplyLine && LegalBoundary(p.boundary) && AllWellFormed(parts, p.boundary)
  }

  /** The header state refuses it. */
  lemma DelimiterStops(p: Parser, rest: seq<FormData>)
    requires (p.state == 1 || p.state == 2) && p.lines == ApplyLine && LegalBoundary(p.boundary)
    requires p.pending == DashBoundary(p.boundary) + After(rest, p.boundary)
    ensures !Run(p).1
  {
    var q := if p.state == 1 then p.(file := NO_FILE, state := 2) else p;
    assert DASH <= p.pending;
    RunTurns(p);
    RunTurns(q);
    DelimiterIsBad(q.file, p.boundary, rest);
  }

  /** State 3 delivers everything before the first delimiter. */
  lemma ScanTo(p: Parser, before: seq<FormData>, f: FormData, content: string, next: string)
    requires p.state == 3 && p.received == before + [f]
    requires p.pending == content + CrlfDashBoundary(p.boundary) + next
    requires Find(p.pending, CrlfDashBoundary(p.boundary)) == |content|
    ensures Run(p)
         == Run(p.(state := 4, pending := next, received := before + [f.(content := f.content + content)]))
  {
    var t, d := p.pending, CrlfDashBoundary(p.boundary);
    assert t[..|content|] == content && t[|content| + |d|..] == next;
    assert ScanBody(d, t) == (content, next, true);
    assert p.received[..|p.received| - 1] == before;
    RunTurns(p);
  }

  /** A content and what follows it, from state 3. */
  lemma ContentRun(p: Parser, before: seq<FormData>, f: FormData, c: string, rest: seq<FormData>)
    requires p.state == 3 && p.received == before + [f] && f.content == ""
    requires !p.valid && p.lines == ApplyLine && LegalBoundary(p.boundary) && AllWellFormed(rest, p.boundary)
    requires p.pending == c + CrlfDashBoundary(p.boundary) + After(rest, p.boundary)
    requires !Contains(c, CrlfDashBoundary(p.boundary))
    ensures Finished(Run(p), before + [f.(content := c)] + rest)
  {
    var next := After(rest, p.boundary);
    DelimiterStartsOnce(p.boundary);
    FindBefore(c, CrlfDashBoundary(p.boundary), next);
    ScanTo(p, before, f, c, next);
    assert "" + c == c;
    RunAfter(p.(state := 4, pending := next, received := before + [f.(content := c)]), rest);
  }

  /** The content that swallows the delimiter of another part ends at the next one, or in what looks like one. */
  lemma SwallowedTo(p: Parser, before: seq<FormData>, f: FormData, rest: seq<FormData>)
    returns (content: string, next: string)
    requires p.state == 3 && p.received == before + [f] && rest != [] && Ready(p, rest)
    requires p.pending == DashBoundary(p.boundary) + After(rest, p.boundary)
    ensures Run(p) == Run(p.(state := 4, pending := next, received := before + [f.(content := f.content + content)]))
    ensures var mark, c, last := DashBoundary(p.boundary), rest[0].content, After(rest[1..], p.boundary);
            next == if StartsWith(c, mark) then c[|mark|..] + CrlfDashBoundary(p.boundary) + last else last
  {
    var b := p.boundary;
    var mark, d, tail := DashBoundary(b), CrlfDashBoundary(b), Tail(rest, b);
    var g, h, c, last := mark + CRLF, HeaderLines(rest[0]), rest[0].content, After(rest[1..], b);
    DelimiterLine(b, rest);
    assert mark + "" == mark;
    OneLineUnbroken(mark);
    assert tail == h + (c + d + last) && tail[0] == 'C' && mark[0] == '-';
    FindPastLine(mark, b, tail);
    FindPastHeaders(rest[0], b, c + d + last);
    if StartsWith(c, mark) {
      SwallowedMore(g, h, c, b, last);
      content, next := g + h[..|h| - 2], c[|mark|..] + d + last;
    } else {
      NotMark(c, b, last);
      DelimiterStartsOnce(b);
      FindBefore(c, d, last);
      SwallowedAll(g, h, c, d, last);
      content, next := g + h + c, last;
    }
    ScanTo(p, before, f, content, next);
  }

  lemma {:induction false} Swallowed(p: Parser, before: seq<FormData>, f: FormData, parts: seq<FormData>, strict: bool)
    requires p.state == 3 && p.received == before + [f] && parts != [] && Ready(p, parts)
    requires p.pending == DashBoundary(p.boundary) + After(parts[1..], p.boundary)
    requires strict ==> f.content == "" && 3 <= |parts[0].content|
    ensures Misses(Run(p), before, parts, strict)
    decreases |parts|, 1
  {
    var b, rest := p.boundary, parts[1..];
    if rest == [] {
      SwallowedLast(p, before, f, parts, strict);
    } else {
      var content, next := SwallowedTo(p, before, f, rest);
      var f', mark, c := f.(content := f.content + content), DashBoundary(b), rest[0].content;
      var q := p.(state := 4, pending := next, received := before + [f']);
      if StartsWith(c, mark) {
        SuffixLacks(c, CrlfDashBoundary(b), |mark|);
        AfterSwallowed(q, before, f', c[|mark|..], parts, strict);
      } else {
        RunAfter(q, rest[1..]);
        FinishedMisses(Run(p), before, parts, strict, before + [f'] + rest[1..]);
      }
    }
  }

  /** The closing delimiter, swallowed, never closes the body; two bytes of it are delivered. */
  lemma SwallowedLast(p: Parser, before: seq<FormData>, f: FormData, parts: seq<FormData>, strict: bool)
    requires p.state == 3 && p.received == before + [f] && |parts| == 1 && Ready(p, parts)
    requires p.pending == DashBoundary(p.boundary) + After([], p.boundary)
    requires strict ==> f.content == "" && 3 <= |parts[0].content|
    ensures Misses(Run(p), before, parts, strict)
  {
    var b := p.boundary;
    DelimiterLine(b, []);
    OneLineUnbroken(DashBoundary(b) + DASH);
    FindPastLine(DashBoundary(b) + DASH, b, "");
    RunTurns(p);
    var f' := f.(content := f.content + p.pending[..2]);
    assert Run(p).0.received == before + [f'];
    assert strict ==> (before + parts)[|before|].content != f'.content;
  }

  lemma EmptyContent(boundary: string, next: string)
    ensures var t := "" + CrlfDashBoundary(boundary) + next;
            t[..2] == CRLF && t[2..] == DashBoundary(boundary) + next
  {
    DelimiterShapes("", boundary, next);
    assert "" + CRLF == CRLF;
  }

  lemma ClosesEarly(p: Parser, before: seq<FormData>, f: FormData, c: string, parts: seq<FormData>, strict: bool)
    requires p.state == 4 && p.valid && p.pending == "" && p.received == before + [f] && 2 <= |parts|
    requires Inner(p.epilogue, c, p.boundary, parts[1..])
    ensures Misses((p, true), before, parts, strict)
  {
    assert "" + p.epilogue == p.epilogue;
    assert Early(p, before, parts, strict, 1);
  }

  lemma Stuck(p: Parser, before: seq<FormData>, f: FormData, parts: seq<FormData>, strict: bool)
    requires !p.valid && p.received == before + [f] && 2 <= |parts|
    ensures Misses((p, true), before, parts, strict)
  {}

  /** The delimiter was found where the content of `parts[1]` starts; `c` is the rest of this content. */
  lemma {:induction false} AfterSwallowed(p: Parser, before: seq<FormData>, f: FormData, c: string,
                                          parts: seq<FormData>, strict: bool)
    requires p.state == 4 && 2 <= |parts| && Ready(p, parts) && p.received == before + [f]
    requires p.pending == c + CrlfDashBoundary(p.boundary) + After(parts[2..], p.boundary)
    requires !Contains(c, CrlfDashBoundary(p.boundary)) && |c| + 2 <= |parts[1].content|
    ensures Misses(Run(p), before, parts, strict)
    decreases |parts|, 0
  {
    var b, rest, next := p.boundary, parts[1..], p.pending[2..];
    assert rest[1..] == parts[2..];
    BoundaryTurn(p);
    if c == "" {
      EmptyContent(b, After(rest[1..], b));
      DelimiterStops(p.(state := 1, pending := next), rest[1..]);
    } else if |c| == 1 {
      assert p.pending[1] == '\r' && p.pending[..2][1] != '\n' && p.pending[..2][1] != '-';
      Stuck(p, before, f, parts, strict);
    } else {
      CutContent(c, 2, b, rest);
      if c[..2] == CRLF {
        var q := p.(state := 1, pending := next);
        Inside(q, c[2..], rest, strict);
        OneAdded(Run(q), before, f, parts, strict);
      } else if c[..2] == DASH {
        ClosesEarly(p.(pending := "", valid := true, epilogue := next), before, f, c[2..], parts, strict);
      } else {
        Stuck(p, before, f, parts, strict);
      }
    }
  }

  /** State 4 looks at two bytes. */
  lemma BoundaryTurn(p: Parser)
    requires p.state == 4 && 2 <= |p.pending|
    ensures var start, next := p.pending[..2], p.pending[2..];
            Run(p) == if start == CRLF then Run(p.(state := 1, pending := next))
                      else if start == DASH then (p.(pending := "", valid := true, epilogue := next), true)
                      else (p, true)
  {
    RunTurns(p);
  }

  lemma CutContent(c: string, k: nat, boundary: string, parts: seq<FormData>)
    requires k <= |c| && parts != [] && !Contains(c, CrlfDashBoundary(boundary))
    ensures var d, last := CrlfDashBoundary(boundary), After(parts[1..], boundary);
            && (c + d + last)[..k] == c[..k] && (c + d + last)[k..] == c[k..] + d + last
            && !Contains(c[k..], d)
  {
    var d, last := CrlfDashBoundary(boundary), After(parts[1..], boundary);
    SuffixLacks(c, d, k);
    AppendAssociates(c, d, last);
    AppendAssociates(c[k..], d, last);
    CutFront(c, d + last, k);
  }

  /** A new part that starts inside the content of `parts[0]`. */
  lemma {:induction false} Inside(p: Parser, c: string, parts: seq<FormData>, strict: bool)
    requires p.state == 1 && parts != [] && Ready(p, parts)
    requires p.pending == c + CrlfDashBoundary(p.boundary) + After(parts[1..], p.boundary)
    requires !Contains(c, CrlfDashBoundary(p.boundary))
    requires strict ==> |c| + 3 <= |parts[0].content|
    ensures Misses(Run(p), p.received, parts, strict)
    decreases |parts|, 2
  {
    var b, rest := p.boundary, parts[1..];
    var q := p.(file := NO_FILE, state := 2);
    RunTurns(p);
    RunTurns(q);
    var c' := HeadersInside(NO_FILE, c, b, rest);
    match ReadHeaders(ApplyLine, NO_FILE, p.pending) {
      case HeadersMore(_, _) =>
      case HeadersBad =>
      case HeadersEnd(f, t) =>
        if Find(p.pending, CRLF) <= HEADER_MAX_LENGTH {
          var r := q.(file := f, pending := t, state := 3, received := p.received + [f]);
          if t == DashBoundary(b) + After(rest, b) {
            Swallowed(r, p.received, f, parts, strict);
          } else {
            ContentRun(r, p.received, f, c', rest);
            OtherFirst(Run(p), p.received, f.(content := c'), parts, strict);
          }
        }
    }
  }

  // ---- Where the run can start

  /** A part whose header lines begin at the line of its type, or at the blank line. */
  lemma HeaderEndRun(p: Parser, part: FormData, parts: seq<FormData>, strict: bool)
    requires p.state == 1 && parts != [] && Ready(p, parts)
    requires part == parts[0] || part == parts[0].(contentType := "")
    requires strict ==> part != parts[0]
    requires var c := parts[0].content;
             p.pending == TypeLines(part) + CRLF + (c + CrlfDashBoundary(p.boundary) + After(parts[1..], p.boundary))
    ensures Misses(Run(p), p.received, parts, strict)
  {
    var c, rest := parts[0].content, parts[1..];
    var t := c + CrlfDashBoundary(p.boundary) + After(rest, p.boundary);
    var f := NO_FILE.(contentType := part.contentType);
    var r := TypeRun(p, part, t);
    if Run(p).1 {
      ContentRun(r, p.received, f, c, rest);
      OtherFirst(Run(p), p.received, f.(content := c), parts, strict);
    }
  }

  /** State 2 reads such lines to their end, unless their length is refused. */
  lemma TypeRun(p: Parser, part: FormData, t: string) returns (q: Parser)
    requires p.state == 1 && p.lines == ApplyLine && WellFormed(part, p.boundary)
    requires p.pending == TypeLines(part) + CRLF + t
    ensures var f := NO_FILE.(contentType := part.contentType);
            q == p.(file := f, pending := t, state := 3, received := p.received + [f])
    ensures Run(p).1 ==> Run(p) == Run(q)
  {
    var f := NO_FILE.(contentType := part.contentType);
    var r := p.(file := NO_FILE, state := 2);
    q := p.(file := f, pending := t, state := 3, received := p.received + [f]);
    RunTurns(p);
    RunTurns(r);
    TypeComesBack(part, NO_FILE, t);
  }

  /** A line `mark` ends somewhere behind the start of `c` in the rest of a body, and a part is read from there. */
  lemma {:induction false} StartInContent(p: Parser, c: string, parts: seq<FormData>, u: string, mark: string,
                                          strict: bool)
    requires p.state == 1 && parts != [] && Ready(p, parts)
    requires mark == "" || mark == DashBoundary(p.boundary)
    requires u + (mark + CRLF) + p.pending == c + CrlfDashBoundary(p.boundary) + After(parts[1..], p.boundary)
    requires !Contains(c, CrlfDashBoundary(p.boundary))
    requires strict ==> |c| + 1 <= |parts[0].content| + |mark|
    ensures Misses(Run(p), p.received, parts, strict)
    decreases |parts|, 0
  {
    var b, rest := p.boundary, parts[1..];
    BoundaryIsOneLine(b);
    var place, v := PeelContent(c, b, rest, u, mark, p.pending);
    match place {
      case InContent =>
        Inside(p, v, parts, strict);
      case AtDelimiter =>
        DelimiterStops(p, rest);
      case AtNextPart =>
        StartBetween(p, parts, strict);
      case Later =>
        StartInTail(p, rest, v, mark, false);
        Fewer(Run(p), p.received, parts, strict);
    }
  }

  /** At the start of a later part, or behind the end of the body. */
  lemma StartBetween(p: Parser, parts: seq<FormData>, strict: bool)
    requires p.state == 1 && parts != [] && Ready(p, parts) && p.pending == NextLines(parts[1..], p.boundary)
    ensures Misses(Run(p), p.received, parts, strict)
  {
    var rest := parts[1..];
    if rest != [] {
      RunAll(p, rest);
      FinishedMisses(Run(p), p.received, parts, strict, p.received + rest);
    }
  }

  /** The same from the header lines of the first part. */
  lemma {:induction false} StartInTail(p: Parser, parts: seq<FormData>, u: string, mark: string, strict: bool)
    requires p.state == 1 && parts != [] && Ready(p, parts)
    requires mark == "" || mark == DashBoundary(p.boundary)
    requires u + (mark + CRLF) + p.pending == Tail(parts, p.boundary)
    requires strict ==> mark != ""
    ensures Misses(Run(p), p.received, parts, strict)
    decreases |parts|, 1
  {
    var b, part, w := p.boundary, parts[0], p.pending;
    var t := part.content + CrlfDashBoundary(b) + After(parts[1..], b);
    BoundaryIsOneLine(b);
    var v := PeelHeaders(part, b, t, u, mark, w);
    if w == TypeLines(part) + CRLF + t && mark == "" {
      HeaderEndRun(p, part, parts, strict);
    } else if w == CRLF + t && part.contentType != "" {
      assert "" + CRLF == CRLF;
      HeaderEndRun(p, part.(contentType := ""), parts, strict);
    } else if w == t && mark == "" {
      Inside(p, part.content, parts, strict);
    } else {
      StartInContent(p, part.content, parts, v, mark, strict);
    }
  }
}
