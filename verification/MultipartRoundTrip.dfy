/** Printing parts and parsing the body, cut into fragments in any way. */
module MultipartRoundTrip {
  import opened Text
  import opened Fields
  import opened MultipartFormat
  import opened MultipartParser
  import opened MultipartFragments
  import opened MultipartClean
  import MultipartHeaders

  function TypeLine(p: FormData): string {
    "Content-Type: " + p.contentType
  }

  /** Header lines that pass the length check, however they arrive. */
  predicate Fits(p: FormData) {
    |DispositionLine(p)| < HEADER_MAX_LENGTH && |TypeLine(p)| < HEADER_MAX_LENGTH
  }

  ghost predicate WellFormed(p: FormData, boundary: string) {
    Fits(p) && MultipartHeaders.ParamClean(p.filename) && Clean(p, boundary)
  }

  ghost predicate AllWellFormed(parts: seq<FormData>, boundary: string) {
    forall i :: 0 <= i < |parts| ==> WellFormed(parts[i], boundary)
  }

  // ---- The body as the parser cuts it

  /** What follows the first delimiter line. */
  function Tail(parts: seq<FormData>, boundary: string): string
    requires parts != []
    decreases |parts|, 0
  {
    HeaderLines(parts[0]) + (parts[0].content + CrlfDashBoundary(boundary) + After(parts[1..], boundary))
  }

  /** What follows the delimiter of a part. */
  function After(rest: seq<FormData>, boundary: string): string
    decreases |rest|, 1
  {
    if rest == [] then DASH + CRLF else CRLF + Tail(rest, boundary)
  }

  lemma {:induction false} BodyIsTail(parts: seq<FormData>, boundary: string)
    requires parts != []
    ensures Body(parts, boundary) == DashBoundaryCrlf(boundary) + Tail(parts, boundary)
    decreases |parts|
  {
    var first, rest := DashBoundaryCrlf(boundary), parts[1..];
    var h, c := HeaderLines(parts[0]), parts[0].content;
    var next := Items(rest, boundary) + ClosingLine(boundary);
    if rest != [] { BodyIsTail(rest, boundary); }
    DelimiterShape(boundary, rest, next);
    ItemShape(first, h, c, Items(rest, boundary), ClosingLine(boundary));
    AppendAssociates(c, CrlfDashBoundary(boundary), After(rest, boundary));
  }

  lemma ItemShape(d: string, h: string, c: string, items: string, closing: string)
    ensures d + h + c + CRLF + items + closing == d + (h + (c + (CRLF + (items + closing))))
  {
    AppendAssociates(d + h + c + CRLF, items, closing);
    AppendAssociates(d + h + c, CRLF, items + closing);
    AppendAssociates(d + h, c, CRLF + (items + closing));
    AppendAssociates(d, h, c + (CRLF + (items + closing)));
  }

  /** The line break after a part, together with what follows it, is the delimiter and what follows it. */
  lemma DelimiterShape(boundary: string, rest: seq<FormData>, next: string)
    requires next == if rest == [] then ClosingLine(boundary)
                     else DashBoundaryCrlf(boundary) + Tail(rest, boundary)
    ensures CRLF + next == CrlfDashBoundary(boundary) + After(rest, boundary)
  {
    var b, last := DASH + boundary, if rest == [] then DASH + CRLF else CRLF + Tail(rest, boundary);
    AppendAssociates(b, DASH, CRLF);
    if rest != [] { AppendAssociates(b, CRLF, Tail(rest, boundary)); }
    AppendAssociates(CRLF, b, last);
    AppendAssociates(CRLF, DASH, boundary);
  }

  // ---- One part

  lemma ReadLine(lines: LineReader, file: FormData, line: string, rest: string, f: FormData)
    requires line != "" && !Contains(line, CRLF) && |line| < HEADER_MAX_LENGTH && lines(file, line) == Some(f)
    ensures Find(line + CRLF + rest, CRLF) == |line|
    ensures ReadHeaders(lines, file, line + CRLF + rest) == ReadHeaders(lines, f, rest)
    ensures LinesShort(rest) ==> LinesShort(line + CRLF + rest)
  {
    var t := line + CRLF + rest;
    FindBefore(line, CRLF, rest);
    assert t[..|line|] == line && t[|line| + 2..] == rest;
  }

  lemma ReadBlank(lines: LineReader, file: FormData, rest: string)
    ensures ReadHeaders(lines, file, CRLF + rest) == HeadersEnd(file, rest) && LinesShort(CRLF + rest)
  {
    assert (CRLF + rest)[..2] == CRLF && (CRLF + rest)[2..] == rest;
  }

  lemma NoBreak(prefix: string, s: string)
    requires '\r' !in prefix && !Contains(s, CRLF)
    ensures !Contains(prefix + s, CRLF)
  {
    var w := prefix + s;
    forall i: nat | i < |w| ensures !OccursAt(w, CRLF, i) {
      if |prefix| <= i {
        OccursInSuffix(prefix, s, CRLF, i);
      } else {
        assert w[i] in prefix;
        assert i + 2 <= |w| ==> w[i..i + 2][0] == w[i];
      }
    }
  }

  lemma NoReturnNoBreak(s: string)
    requires '\r' !in s
    ensures !Contains(s, CRLF)
  {
    forall i | 0 <= i < |s| ensures !OccursAt(s, CRLF, i) {
      assert s[i] in s;
      assert i + 2 <= |s| ==> s[i..i + 2][0] == s[i];
    }
  }

  lemma DispositionUnbroken(p: FormData)
    requires MultipartHeaders.ParamClean(p.name) && MultipartHeaders.ParamClean(p.filename)
    ensures DispositionLine(p) != "" && !Contains(DispositionLine(p), CRLF)
  {
    MultipartHeaders.ParamsShape(p);
    var params := MultipartHeaders.ParamsOf(p);
    assert '\r' !in DISPOSITION && '\r' !in params;
    NoReturnNoBreak(params);
    NoBreak(DISPOSITION, params);
  }

  /** One line, then the blank line. */
  lemma LineThenBlank(lines: LineReader, file: FormData, line: string, rest: string, f: FormData)
    requires line != "" && !Contains(line, CRLF) && |line| < HEADER_MAX_LENGTH && lines(file, line) == Some(f)
    ensures var t := line + CRLF + CRLF + rest;
            LinesShort(t) && ReadHeaders(lines, file, t) == HeadersEnd(f, rest)
  {
    AppendAssociates(line + CRLF, CRLF, rest);
    ReadBlank(lines, f, rest);
    ReadLine(lines, file, line, CRLF + rest, f);
  }

  lemma TypeComesBack(p: FormData, file: FormData, rest: string)
    requires Trimmed(p.contentType) && !Contains(p.contentType, CRLF) && |TypeLine(p)| < HEADER_MAX_LENGTH
    ensures var t := TypeLines(p) + CRLF + rest;
            && LinesShort(t)
            && ReadHeaders(ApplyLine, file, t)
            == HeadersEnd(if p.contentType == "" then file else file.(contentType := p.contentType), rest)
  {
    if p.contentType == "" {
      assert "" + CRLF + rest == CRLF + rest;
      ReadBlank(ApplyLine, file, rest);
    } else {
      var f := file.(contentType := p.contentType);
      MultipartHeaders.TypeRoundTrip(p.contentType, file);
      NoBreak("Content-Type: ", p.contentType);
      LineThenBlank(ApplyLine, file, TypeLine(p), rest, f);
    }
  }

  /** The header lines of a well-formed part, read back. */
  lemma HeadersComeBack(p: FormData, boundary: string, rest: string)
    requires WellFormed(p, boundary)
    ensures var t := HeaderLines(p) + rest;
            && Find(t, CRLF) <= HEADER_MAX_LENGTH && LinesShort(t)
            && ReadHeaders(ApplyLine, NO_FILE, t) == HeadersEnd(p.(content := ""), rest)
  {
    var file := NO_FILE.(name := p.name, filename := p.filename);
    var line := DispositionLine(p);
    MultipartHeaders.DispositionRoundTrip(p);
    DispositionUnbroken(p);
    var types := TypeLines(p) + CRLF + rest;
    HeaderLinesShape(p, rest);
    TypeComesBack(p, file, rest);
    ReadLine(ApplyLine, NO_FILE, line, types, file);
  }

  lemma HeaderLinesShape(p: FormData, rest: string)
    ensures HeaderLines(p) + rest == DispositionLine(p) + CRLF + (TypeLines(p) + CRLF + rest)
    ensures p.contentType != "" ==> TypeLines(p) == TypeLine(p) + CRLF
  {
    AppendAssociates(DispositionLine(p) + CRLF, TypeLines(p), CRLF);
    AppendAssociates(DispositionLine(p) + CRLF, TypeLines(p) + CRLF, rest);
  }

  lemma DelimiterStartsOnce(boundary: string)
    requires LegalBoundary(boundary)
    ensures var d := CrlfDashBoundary(boundary); d != "" && d[0] == '\r' && '\r' !in d[1..]
  {
    var d := CrlfDashBoundary(boundary);
    assert d[1..] == "\n" + DASH + boundary;
  }

  lemma AddLast(received: seq<FormData>, p: FormData)
    ensures AddContent(received + [p.(content := "")], p.content) == received + [p]
  {
    var all := received + [p.(content := "")];
    assert all[..|all| - 1] == received && "" + p.content == p.content;
  }

  lemma HeaderTurn(p: Parser, part: FormData, t: string)
    requires p.state == 2 && p.lines == ApplyLine && p.file == NO_FILE && WellFormed(part, p.boundary)
    requires p.pending == HeaderLines(part) + t && p.pending != ""
    ensures LinesShort(p.pending)
    ensures var file := part.(content := "");
            Turn(p) == Next(p.(file := file, pending := t, state := 3, received := p.received + [file]))
  {
    HeadersComeBack(part, p.boundary, t);
  }

  lemma BodyTurn(p: Parser, part: FormData, received: seq<FormData>, next: string)
    requires p.state == 3 && LegalBoundary(p.boundary) && !Contains(part.content, CrlfDashBoundary(p.boundary))
    requires p.pending == part.content + CrlfDashBoundary(p.boundary) + next
    requires p.received == received + [part.(content := "")]
    ensures p.pending != "" && Turn(p) == Next(p.(received := received + [part], pending := next, state := 4))
  {
    var d, t := CrlfDashBoundary(p.boundary), p.pending;
    DelimiterStartsOnce(p.boundary);
    FindBefore(part.content, d, next);
    assert t[..|part.content|] == part.content && t[|part.content| + |d|..] == next;
    assert ScanBody(d, t) == (part.content, next, true);
    AddLast(received, part);
  }

  function AfterPart(p: Parser, part: FormData, next: string): Parser {
    p.(state := 4, file := part.(content := ""), received := p.received + [part], pending := next)
  }

  /** From state 1, a part and its delimiter lead to state 4 with exactly that part added. */
  lemma RunPart(p: Parser, part: FormData, next: string)
    requires p.state == 1 && !p.valid && p.lines == ApplyLine
    requires LegalBoundary(p.boundary) && WellFormed(part, p.boundary)
    requires p.pending == HeaderLines(part) + (part.content + CrlfDashBoundary(p.boundary) + next)
    ensures var q := AfterPart(p, part, next); Run(p) == Run(q) && (Short(q) ==> Short(p))
  {
    var t := part.content + CrlfDashBoundary(p.boundary) + next;
    var q1 := p.(file := NO_FILE, state := 2);
    var file := part.(content := "");
    var q2 := q1.(file := file, pending := t, state := 3, received := p.received + [file]);
    var q3 := q2.(received := p.received + [part], pending := next, state := 4);
    assert HeaderLines(part) != "";
    assert Turn(p) == Next(q1);
    RunTurns(p);
    HeaderTurn(q1, part, t);
    RunTurns(q1);
    BodyTurn(q2, part, p.received, next);
    RunTurns(q2);
  }

  // ---- The whole body

  /** The end of a successful run: everything is reported and only the last line break is left over. */
  ghost predicate Finished(outcome: (Parser, bool), received: seq<FormData>) {
    var (q, ok) := outcome;
    ok && q.valid && q.received == received && q.epilogue == CRLF && q.pending == "" && q.state == 4
  }

  lemma {:induction false} RunAll(p: Parser, parts: seq<FormData>)
    requires p.state == 1 && !p.valid && p.lines == ApplyLine && parts != []
    requires LegalBoundary(p.boundary) && AllWellFormed(parts, p.boundary)
    requires p.pending == Tail(parts, p.boundary)
    ensures Short(p) && Finished(Run(p), p.received + parts)
    decreases |parts|, 0
  {
    var part, rest := parts[0], parts[1..];
    assert parts == [part] + rest;
    AppendAssociates(p.received, [part], rest);
    var next := After(rest, p.boundary);
    RunPart(p, part, next);
    RunAfter(AfterPart(p, part, next), rest);
  }

  /** The same from behind the delimiter of a part. */
  lemma {:induction false} RunAfter(p: Parser, rest: seq<FormData>)
    requires p.state == 4 && !p.valid && p.lines == ApplyLine
    requires LegalBoundary(p.boundary) && AllWellFormed(rest, p.boundary)
    requires p.pending == After(rest, p.boundary)
    ensures Short(p) && Finished(Run(p), p.received + rest)
    decreases |rest|, 1
  {
    var t := p.pending;
    if rest == [] {
      assert t[..2] == DASH && t[2..] == CRLF && t[0] == '-';
      var r := p.(pending := "", valid := true, epilogue := CRLF);
      assert Turn(p) == Next(r) && Run(r) == (r, true);
      assert Short(r) && p.received + rest == p.received;
    } else {
      assert t[..2] == CRLF && t[2..] == Tail(rest, p.boundary);
      var r := p.(pending := Tail(rest, p.boundary), state := 1);
      assert Turn(p) == Next(r);
      RunAll(r, rest);
    }
  }

  /** The first fragment that is not empty. */
  ghost function FirstFragment(fragments: seq<string>): string {
    if fragments == [] then "" else if fragments[0] != "" then fragments[0] else FirstFragment(fragments[1..])
  }

  lemma TailAtOnce(parts: seq<FormData>, boundary: string, p: Parser)
    requires parts != [] && LegalBoundary(boundary) && AllWellFormed(parts, boundary)
    requires p == Start(boundary).(state := 1)
    ensures Short(More(p, Tail(parts, boundary))) && Finished(Feed(p, Tail(parts, boundary)), parts)
  {
    var t := Tail(parts, boundary);
    assert "" + t == t;
    RunAll(More(p, t), parts);
    assert [] + parts == parts;
  }

  /** The fragments after the one that held the closing delimiter. */
  lemma Closed(p: Parser, xs: seq<string>, ys: seq<string>, q: Parser)
    requires 1 <= p.state <= 4 && FeedAll(p, xs) == (q, true)
    requires q.valid && q.state == 4 && q.pending == "" && q.epilogue + Concat(ys) == CRLF
    ensures var r := FeedAll(p, xs + ys); r.1 && r.0.valid && r.0.received == q.received
  {
    SuffixOfCrlf(q.epilogue, Concat(ys));
    assert q.pending + Concat(ys) == Concat(ys);
    AfterClosing(q, ys);
    FeedAllAppend(p, xs, ys);
  }

  lemma SuffixOfCrlf(a: string, b: string)
    requires a + b == CRLF
    ensures b == "" || b == "\n" || b == CRLF
  {
    assert b == CRLF[|a|..];
  }

  /** What is finished in one call is finished in many. */
  lemma FragmentsFinish(p: Parser, fragments: seq<string>, received: seq<FormData>)
    requires 1 <= p.state <= 4 && !p.valid && fragments != [] && Short(More(p, Concat(fragments)))
    requires Finished(Feed(p, Concat(fragments)), received)
    ensures var (q, ok) := FeedAll(p, fragments); ok && q.valid && q.received == received
  {
    var k := FragmentsAgree(p, fragments, true);
    if k < |fragments| {
      var xs, ys := fragments[..k], fragments[k..];
      Closed(p, xs, ys, FeedAll(p, xs).0);
      Rejoin(fragments, k);
    }
  }

  /** From the first delimiter line on, any fragmentation of the rest of the body gives the parts. */
  lemma TailComesBack(parts: seq<FormData>, boundary: string, fragments: seq<string>)
    requires parts != [] && LegalBoundary(boundary) && AllWellFormed(parts, boundary)
    requires fragments != [] && Concat(fragments) == Tail(parts, boundary)
    ensures var (q, ok) := FeedAll(Start(boundary).(state := 1), fragments);
            ok && q.valid && q.received == parts
  {
    var p := Start(boundary).(state := 1);
    TailAtOnce(parts, boundary, p);
    FragmentsFinish(p, fragments, parts);
  }

  lemma SplitFirst(x: string, y: string, a: string, b: string)
    requires x + y == a + b && |a| <= |x|
    ensures x == a + x[|a|..] && x[|a|..] + y == b
  {
    assert (x + y)[..|a|] == x[..|a|] && (a + b)[..|a|] == a;
    assert (x + y)[|a|..] == x[|a|..] + y && (a + b)[|a|..] == b;
  }

  /** Every call of `parse` returns true, the parser ends valid, and it has reported exactly the parts. */
  predicate Accepts(boundary: string, fragments: seq<string>, parts: seq<FormData>) {
    var (q, ok) := FeedAll(Start(boundary), fragments);
    ok && q.valid && q.received == parts
  }

  /** The first delimiter line, whole in the first fragment, is dropped, and the rest of the body follows. */
  lemma {:induction false} StartsWhole(parts: seq<FormData>, boundary: string, fragments: seq<string>)
    returns (tail: seq<string>)
    requires parts != [] && Concat(fragments) == Body(parts, boundary)
    requires |DashBoundaryCrlf(boundary)| <= |FirstFragment(fragments)|
    ensures tail != [] && Concat(tail) == Tail(parts, boundary)
    ensures FeedAll(Start(boundary), fragments) == FeedAll(Start(boundary).(state := 1), tail)
    decreases |fragments|
  {
    var p, first := Start(boundary), DashBoundaryCrlf(boundary);
    var x, rest := fragments[0], fragments[1..];
    if x == "" {
      assert "" + Concat(rest) == Concat(rest);
      assert p.(pending := "" + "") == p;
      assert Feed(p, x) == (p, true);
      tail := StartsWhole(parts, boundary, rest);
    } else {
      BodyIsTail(parts, boundary);
      var v := x[|first|..];
      SplitFirst(x, Concat(rest), first, Tail(parts, boundary));
      tail := [v] + rest;
      assert tail[1..] == rest;
      StartsAtOnce(x, first, v);
      FirstLine(p, x, "", v);
    }
  }

  /**
   The law of the codec: whatever the parts and however their body is cut, as long as the
   first fragment holds the first delimiter line, the parts come back.
   */
  lemma RoundTrip(parts: seq<FormData>, boundary: string, fragments: seq<string>)
    requires parts != [] && LegalBoundary(boundary) && AllWellFormed(parts, boundary)
    requires Concat(fragments) == Body(parts, boundary)
    requires |DashBoundaryCrlf(boundary)| <= |FirstFragment(fragments)|
    ensures Accepts(boundary, fragments, parts)
  {
    var tail := StartsWhole(parts, boundary, fragments);
    TailComesBack(parts, boundary, tail);
  }

  lemma StartsAtOnce(x: string, first: string, v: string)
    requires x == first + v && first != ""
    ensures Find(x, first) == 0 && x == "" + (first + v)
  {
    assert x[..|first|] == first;
  }

  /** State 0 drops everything up to the end of the first delimiter line in the fragment. */
  lemma FirstLine(p: Parser, x: string, u: string, v: string)
    requires p == Start(p.boundary) && x == u + (DashBoundaryCrlf(p.boundary) + v)
    requires Find(x, DashBoundaryCrlf(p.boundary)) == |u|
    ensures Feed(p, x) == Feed(p.(state := 1), v)
  {
    var first := DashBoundaryCrlf(p.boundary);
    assert "" + x == x && "" + v == v;
    var t := x[|u|..];
    assert t == first + v;
    assert t[..|first|] == first && t[|first|..] == v;
    assert Turn(p.(pending := x)) == Next(p.(state := 1, pending := v));
  }
}
