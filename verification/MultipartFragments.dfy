/**
 The parser does not depend on how its input is cut: from the first delimiter line to the
 closing one, feeding fragments one by one is feeding their concatenation.
 */
module MultipartFragments {
  import opened Text
  import opened Fields
  import opened MultipartFormat
  import opened MultipartParser

  /** Every header line, and an unfinished one at the end, passes the length check. */
  ghost predicate LinesShort(t: string)
    decreases |t|
  {
    var pos := Find(t, CRLF);
    pos < HEADER_MAX_LENGTH && (0 < pos < |t| ==> LinesShort(t[pos + 2..]))
  }

  /** All header blocks that the parser reads from `p` on have short lines. */
  ghost predicate Short(p: Parser)
    requires p.state <= 4
    decreases |p.pending|, if p.state == 1 then 1 else 0
  {
    p.pending != "" ==>
      && (p.state == 2 ==> LinesShort(p.pending))
      && (Turn(p).Next? ==> (TurnDecreases(p); Short(Turn(p).p)))
  }

  /** Two outcomes that a caller cannot tell apart. */
  ghost predicate Same(a: (Parser, bool), b: (Parser, bool)) {
    && a.1 == b.1
    && a.0.received == b.0.received && a.0.valid == b.0.valid
    && (a.1 ==> a.0 == b.0)
  }

  ghost function More(p: Parser, y: string): Parser {
    p.(pending := p.pending + y)
  }

  lemma FirstLineSplit(x: string, y: string, pos: nat)
    requires pos == Find(x, CRLF) < |x|
    ensures pos + 2 <= |x| && Find(x + y, CRLF) == pos
    ensures (x + y)[..pos] == x[..pos] && (x + y)[pos + 2..] == x[pos + 2..] + y
  {
    FindInPrefix(x, y, CRLF);
  }

  lemma {:induction false} HeadersSplit(lines: LineReader, file: FormData, x: string, y: string, first: Headers)
    requires first == ReadHeaders(lines, file, x)
    ensures match first
            case HeadersBad => ReadHeaders(lines, file, x + y) == HeadersBad
            case HeadersEnd(f, rest) => ReadHeaders(lines, file, x + y) == HeadersEnd(f, rest + y)
            case HeadersMore(f, rest) => ReadHeaders(lines, file, x + y) == ReadHeaders(lines, f, rest + y)
    decreases |x|
  {
    var pos := Find(x, CRLF);
    if pos < |x| {
      FirstLineSplit(x, y, pos);
      if pos > 0 {
        ReadHeadersStep(lines, file, x, pos);
        ReadHeadersStep(lines, file, x + y, pos);
        var f := lines(file, x[..pos]);
        if f.Some? { HeadersSplit(lines, f.value, x[pos + 2..], y, first); }
      } else {
        assert (x + y)[2..] == x[2..] + y;
      }
    }
  }

  lemma {:induction false} LinesShortSplit(lines: LineReader, file: FormData, x: string, y: string)
    requires LinesShort(x + y)
    ensures Find(x, CRLF) <= HEADER_MAX_LENGTH
    ensures ReadHeaders(lines, file, x).HeadersMore? ==> LinesShort(ReadHeaders(lines, file, x).rest + y)
    decreases |x|
  {
    var pos, whole := Find(x, CRLF), Find(x + y, CRLF);
    if pos < |x| {
      FindInPrefix(x, y, CRLF);
      assert (x + y)[pos + 2..] == x[pos + 2..] + y;
      if pos > 0 && lines(file, x[..pos]).Some? {
        LinesShortSplit(lines, lines(file, x[..pos]).value, x[pos + 2..], y);
      }
    } else {
      FirstCrlfIsLate(x, y);
    }
  }

  /** A line that is unfinished in `x` ends at most one byte before the end of `x`. */
  lemma FirstCrlfIsLate(x: string, y: string)
    requires Find(x, CRLF) == |x|
    ensures |x| <= Find(x + y, CRLF) + 1
  {
    var i := Find(x + y, CRLF);
    FindSpec(x, CRLF);
    FindSpec(x + y, CRLF);
    if i + 2 <= |x| {
      OccursInPrefix(x, y, CRLF, i);
    }
  }

  /**
   Running on `x` and then on `y` is running on `x + y`, up to the closing delimiter;
   behind it everything is dropped. Only the length check of the header state can tell the
   two apart: `short` lines pass it in both, and what passes it in two parts passes in one.
   */
  ghost predicate Splits(p: Parser, y: string, short: bool)
    requires p.state <= 4
  {
    var whole := Run(More(p, y));
    var (q, ok) := Run(p);
    RunKeepsShape(p);
    if !ok then short ==> Same((q, ok), whole)
    else if q.valid then
      whole == (q.(epilogue := q.epilogue + y), true)
    else
      && (short ==> Short(More(q, y)))
      && (short || Run(More(q, y)).1 ==> Same(Run(More(q, y)), whole))
  }

  /** One turn: either `y` does not matter to it, or it ends the run. */
  ghost predicate TurnSplits(p: Parser, y: string, short: bool)
    requires p.state <= 4 && p.pending != ""
  {
    if Turn(p).Next? && !Turn(p).p.valid then Turn(More(p, y)) == Next(More(Turn(p).p, y))
    else Splits(p, y, short)
  }

  lemma {:induction false} RunSplits(p: Parser, y: string, short: bool)
    requires 1 <= p.state <= 4 && !p.valid && (short ==> Short(More(p, y)))
    ensures Splits(p, y, short)
    decreases |p.pending|, if p.state == 1 then 1 else 0
  {
    if p.pending != "" {
      TurnAlwaysSplits(p, y, short);
      if Turn(p).Next? && !Turn(p).p.valid {
        TurnDecreases(p);
        RunSplits(Turn(p).p, y, short);
      }
    }
  }

  lemma TurnAlwaysSplits(p: Parser, y: string, short: bool)
    requires 1 <= p.state <= 4 && !p.valid && p.pending != "" && (short ==> Short(More(p, y)))
    ensures TurnSplits(p, y, short)
  {
    match p.state
    case 1 =>
    case 2 => HeaderTurnSplits(p, y, short);
    case 3 => BodyTurnSplits(p, y, short);
    case 4 => BoundaryTurnSplits(p, y, short);
  }

  lemma BoundaryTurnSplits(p: Parser, y: string, short: bool)
    requires p.state == 4 && !p.valid && p.pending != "" && (short ==> Short(More(p, y)))
    ensures TurnSplits(p, y, short)
  {
    var t, q := p.pending, More(p, y);
    if 2 <= |t| {
      assert q.pending[..2] == t[..2] && q.pending[2..] == t[2..] + y;
    }
  }

  lemma HeaderTurnSplits(p: Parser, y: string, short: bool)
    requires p.state == 2 && !p.valid && p.pending != "" && (short ==> Short(More(p, y)))
    ensures TurnSplits(p, y, short)
  {
    HeadersSplit(p.lines, p.file, p.pending, y, ReadHeaders(p.lines, p.file, p.pending));
    if short { LinesShortSplit(p.lines, p.file, p.pending, y); }
    if Find(p.pending, CRLF) < |p.pending| { FindInPrefix(p.pending, y, CRLF); }
    if Find(p.pending, CRLF) <= HEADER_MAX_LENGTH && ReadHeaders(p.lines, p.file, p.pending).HeadersMore? {
      var HeadersMore(f, rest) := ReadHeaders(p.lines, p.file, p.pending);
      UnfinishedHeaders(p, f, rest, y, short);
    }
  }

  /** The headers go on where the input ended. */
  lemma UnfinishedHeaders(p: Parser, f: FormData, rest: string, y: string, short: bool)
    requires p.state == 2 && !p.valid && p.pending != "" && (short ==> Short(More(p, y)))
    requires Find(p.pending, CRLF) <= HEADER_MAX_LENGTH && (short ==> LinesShort(rest + y))
    requires Find(p.pending, CRLF) < |p.pending| ==> Find(p.pending + y, CRLF) == Find(p.pending, CRLF)
    requires ReadHeaders(p.lines, p.file, p.pending) == HeadersMore(f, rest)
    requires ReadHeaders(p.lines, p.file, p.pending + y) == ReadHeaders(p.lines, f, rest + y)
    ensures Turn(p).Stop? && Splits(p, y, short)
  {
    var q, r := More(p, y), p.(file := f, pending := rest + y);
    assert Run(p) == (p.(file := f, pending := rest), true);
    if r.pending != "" {
      assert Find(p.pending, CRLF) == |p.pending| ==> rest == p.pending && f == p.file;
      assert Turn(q) == Turn(r)
          || (Turn(r).Stop? && !Turn(r).ok && (short ==> Turn(q).Stop? && !Turn(q).ok));
    }
  }

  lemma CutFront(t: string, y: string, k: nat)
    requires k <= |t|
    ensures (t + y)[..k] == t[..k] && (t + y)[k..] == t[k..] + y
  {}

  lemma ScanAt(d: string, t: string, pos: nat)
    requires 0 < |d| <= |t| && pos == Find(t, d) < |t|
    ensures ScanBody(d, t) == (t[..pos], t[pos + |d|..], true)
  {}

  lemma ScanFound(d: string, t: string, y: string, pos: nat)
    requires 0 < |d| <= |t| && pos == Find(t, d) < |t| && pos == Find(t + y, d)
    ensures ScanBody(d, t + y) == (t[..pos], t[pos + |d|..] + y, true)
  {
    CutFront(t, y, pos);
    CutFront(t, y, pos + |d|);
    ScanAt(d, t + y, pos);
  }

  lemma BodyTurnSplits(p: Parser, y: string, short: bool)
    requires p.state == 3 && !p.valid && p.pending != "" && (short ==> Short(More(p, y)))
    ensures TurnSplits(p, y, short)
  {
    var t, d := p.pending, CrlfDashBoundary(p.boundary);
    if |d| <= |t| {
      var pos := Find(t, d);
      if pos < |t| {
        FindInPrefix(t, y, d);
        ScanAt(d, t, pos);
        ScanFound(d, t, y, pos);
      } else {
        HeldBack(p, y, short);
      }
    }
  }

  lemma AddContentTwice(received: seq<FormData>, a: string, b: string)
    ensures AddContent(AddContent(received, a), b) == AddContent(received, a + b)
  {
    if received != [] {
      var last := received[|received| - 1];
      AppendAssociates(last.content, a, b);
      assert AddContent(received, a)[..|received| - 1] == received[..|received| - 1];
    }
  }

  /** A prefix in which no delimiter starts shifts the scan of what follows. */
  lemma ScanShift(d: string, u: string, v: string, w: string)
    requires d != "" && |d| <= |v| && w == u + v
    requires forall k :: 0 <= k < |u| ==> !OccursAt(w, d, k)
    ensures var (content, rest, found) := ScanBody(d, v);
            ScanBody(d, w) == (u + content, rest, found)
  {
    FindAfter(u, v, d);
    var pos := Find(v, d);
    var k := if pos < |v| then pos else |v| - |d|;
    assert w[..|u| + k] == u + v[..k] && w[|u| + k..] == v[k..];
    if pos < |v| {
      assert w[|u| + pos + |d|..] == v[pos + |d|..];
    }
  }

  /** Without a delimiter, the scan delivers all but a delimiter's length, and resumes there. */
  lemma ScanResumes(d: string, t: string, y: string, u: string, h: string)
    requires d != "" && t == u + h && |h| == |d| && Find(t, d) == |t|
    ensures var (content, rest, found) := ScanBody(d, h + y);
            ScanBody(d, t + y) == (u + content, rest, found)
  {
    AppendAssociates(u, h, y);
    FindSpec(t, d);
    forall k | 0 <= k < |u| ensures !OccursAt(t + y, d, k) {
      OccursInPrefix(t, y, d, k);
    }
    ScanShift(d, u, h + y, t + y);
  }

  lemma HeldBack(p: Parser, y: string, short: bool)
    requires p.state == 3 && !p.valid && (short ==> Short(More(p, y)))
    requires var d := CrlfDashBoundary(p.boundary);
             |d| <= |p.pending| && Find(p.pending, d) == |p.pending|
    ensures Turn(p).Stop? && Splits(p, y, short)
  {
    var t, d := p.pending, CrlfDashBoundary(p.boundary);
    var len := |t| - |d|;
    var u, h := t[..len], t[len..];
    ScanResumes(d, t, y, u, h);
    AddContentTwice(p.received, u, ScanBody(d, h + y).0);
    var r := p.(received := AddContent(p.received, u), pending := h);
    assert Turn(p) == Stop(r, true);
    assert Turn(More(r, y)) == Turn(More(p, y));
  }

  // ---- Whole sequences of fragments

  lemma {:induction false} FeedAllAppend(p: Parser, xs: seq<string>, ys: seq<string>)
    requires p.state <= 4 && FeedAll(p, xs).1
    ensures FeedAll(p, xs + ys) == FeedAll(FeedAll(p, xs).0, ys)
    decreases xs
  {
    if xs == [] {
      assert xs + ys == ys;
    } else {
      assert (xs + ys)[1..] == xs[1..] + ys;
      FeedAllAppend(Feed(p, xs[0]).0, xs[1..], ys);
    }
  }

  lemma TakeMore<T>(x: T, rest: seq<T>, k: nat)
    requires k <= |rest|
    ensures ([x] + rest)[..k + 1] == [x] + rest[..k] && ([x] + rest)[k + 1..] == rest[k..]
  {}

  lemma FeedFirst(p: Parser, x: string, rest: seq<string>)
    requires p.state <= 4
    ensures var (q, ok) := Feed(p, x); FeedAll(p, [x] + rest) == if ok then FeedAll(q, rest) else (q, false)
  {
    var fragments := [x] + rest;
    assert fragments[0] == x && fragments[1..] == rest;
  }

  lemma FeedUpTo(p: Parser, x: string, rest: seq<string>, k: nat)
    requires p.state <= 4 && k <= |rest| && Feed(p, x).1
    ensures FeedAll(p, ([x] + rest)[..k + 1]) == FeedAll(Feed(p, x).0, rest[..k])
    ensures ([x] + rest)[k + 1..] == rest[k..]
  {
    TakeMore(x, rest, k);
    FeedFirst(p, x, rest[..k]);
  }

  /**
   Feeding `fragments` has the outcome of feeding their concatenation, or else it does so up to the
   fragment `k - 1`, which holds the closing delimiter.
   */
  ghost predicate Agrees(p: Parser, fragments: seq<string>, k: nat)
    requires p.state <= 4 && 1 <= k <= |fragments|
  {
    var whole := Feed(p, Concat(fragments));
    if k == |fragments| then Same(FeedAll(p, fragments), whole)
    else
      var (q, ok) := FeedAll(p, fragments[..k]);
      ok && q.valid && whole == (q.(epilogue := q.epilogue + Concat(fragments[k..])), true)
  }

  lemma AgreesMore(p: Parser, x: string, rest: seq<string>, k: nat)
    requires p.state <= 4 && Feed(p, x).1 && 1 <= k <= |rest| && Agrees(Feed(p, x).0, rest, k)
    requires Same(Feed(Feed(p, x).0, Concat(rest)), Feed(p, x + Concat(rest)))
    ensures Agrees(p, [x] + rest, k + 1)
  {
    FeedUpTo(p, x, rest, k);
    FeedFirst(p, x, rest);
    assert ([x] + rest)[1..] == rest;
  }

  /** The first fragment is refused, or it is the only one, or the closing delimiter is in it. */
  lemma AgreesFirst(p: Parser, x: string, rest: seq<string>)
    requires p.state <= 4
    requires if Feed(p, x).1 && Feed(p, x).0.valid then
               var q := Feed(p, x).0;
               Feed(p, x + Concat(rest)) == (q.(epilogue := q.epilogue + Concat(rest)), true)
             else rest == []
    ensures Agrees(p, [x] + rest, 1)
  {
    FeedUpToOne(p, x, rest);
    assert ([x] + rest)[1..] == rest;
    if rest == [] {
      assert x + "" == x;
    }
  }

  lemma FeedUpToOne(p: Parser, x: string, rest: seq<string>)
    requires p.state <= 4
    ensures FeedAll(p, ([x] + rest)[..1]) == Feed(p, x)
  {
    assert ([x] + rest)[..1] == [x] + [];
    FeedFirst(p, x, []);
  }

  lemma AgreesRefused(p: Parser, x: string, rest: seq<string>)
    requires p.state <= 4 && !Feed(p, x).1 && Same(Feed(p, x), Feed(p, x + Concat(rest)))
    ensures Agrees(p, [x] + rest, |[x] + rest|)
  {
    FeedFirst(p, x, rest);
    assert ([x] + rest)[1..] == rest;
  }

  /** Without `short` lines this holds of fragments that are all accepted. */
  lemma {:induction false} FragmentsAgree(p: Parser, fragments: seq<string>, short: bool) returns (k: nat)
    requires 1 <= p.state <= 4 && !p.valid && fragments != []
    requires if short then Short(More(p, Concat(fragments))) else FeedAll(p, fragments).1
    ensures 1 <= k <= |fragments| && Agrees(p, fragments, k)
    decreases fragments
  {
    var x, rest := fragments[0], fragments[1..];
    var y := Concat(rest);
    assert fragments == [x] + rest;
    AppendAssociates(p.pending, x, y);
    RunSplits(More(p, x), y, short);
    var (q, ok) := Feed(p, x);
    if !ok {
      k := |fragments|;
      AgreesRefused(p, x, rest);
    } else if q.valid || rest == [] {
      k := 1;
      AgreesFirst(p, x, rest);
    } else {
      k := FragmentsAgree(q, rest, short);
      AgreesMore(p, x, rest, k);
      k := k + 1;
    }
  }

  /** The bytes of the last CRLF of a body change nothing, however they arrive. */
  lemma {:induction false} AfterClosing(p: Parser, fragments: seq<string>)
    requires p.valid
    requires var left := p.pending + Concat(fragments);
             (left == "" && p.state == 1) || ((left == "" || left == "\n" || left == CRLF) && p.state == 4)
    ensures var (q, ok) := FeedAll(p, fragments);
            ok && q.valid && q.received == p.received
    decreases fragments
  {
    if fragments != [] {
      var x, y := fragments[0], Concat(fragments[1..]);
      var t := p.pending + x;
      AppendAssociates(p.pending, x, y);
      var (q, ok) := Feed(p, x);
      assert t + y == p.pending + Concat(fragments);
      if t == CRLF {
        assert y == "";
        assert t[2..] == "" && t[..2] == CRLF;
        var r := p.(pending := "", state := 1);
        assert Turn(More(p, x)) == Next(r);
        assert Run(r) == (r, true);
      } else {
        assert |t| < 2;
        assert Run(More(p, x)) == (More(p, x), true);
      }
      AfterClosing(q, fragments[1..]);
    }
  }
}
