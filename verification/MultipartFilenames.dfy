/**
 A filename with `;`, `=`, CR or LF is lost: whatever its header lines are read as, another one is
 reported, and nothing that follows changes it.
 */
module MultipartFilenames {
  import opened Text
  import opened Fields
  import opened MultipartFormat
  import opened MultipartHeaders
  import opened MultipartParser
  import opened MultipartFragments
  import opened MultipartClean
  import opened MultipartRoundTrip
  import opened MultipartLines
  import opened MultipartLateStart
  import Url

  /** A filename as header lines shorter than `name` can leave it: it is clean, or itself shorter. */
  predicate Other(filename: string, name: string) {
    ParamClean(filename) || |filename| < |name|
  }

  // ---- What a disposition leaves

  lemma ValuesShort(params: string)
    ensures AllHold(DispositionPairs(params), (k, v) => |v| <= |params|)
  {
    var pieces, P := Split(params, ';'), (k: string, v: string) => |v| <= |params|;
    SplitPieces(params, ';');
    forall q | q in pieces ensures P(TrimQuotes(KeyValue(q).0), TrimQuotes(KeyValue(q).1)) {
      SplitPieces(q, '=');
    }
    CollectHolds(pieces, {}, map[], TrimQuotes, P);
  }

  /** The filename comes from a clean parameter, or from an extended one, of at most `n` bytes. */
  lemma PairsLeave(file: FormData, pairs: Fields.Params, n: nat, name: string)
    requires Other(file.filename, name) && n <= |name| + 6
    requires AllHold(pairs, (k, v) => ParamClean(v))
    requires AllHold(pairs, (k, v) => k == "filename*" ==> |v| <= n)
    ensures match ApplyDisposition(file, pairs)
            case None => true
            case Some(f) => Other(f.filename, name)
  {
    if "filename*" in pairs && pairs["filename*"] != [] {
      var v := pairs["filename*"][0];
      assert |v| <= n;
      if ExtendedValue(v).Some? { Url.DecodeShrinks(v[7..], false); }
    }
  }

  /** One line that is not much longer than the filename. */
  lemma LineLeaves(file: FormData, line: string, name: string)
    requires Other(file.filename, name) && |line| <= |name| + 6
    ensures match ApplyLine(file, line)
            case None => true
            case Some(f) => Other(f.filename, name)
  {
    var params := DispositionParams(line);
    if params.Some? && !StartsWithNoCase(line, "Content-Type:") {
      SkipShrinks(line[|"Content-Disposition:"|..]);
      var rest := SkipSpaces(line[|"Content-Disposition:"|..]);
      SkipShrinks(rest[|"form-data;"|..]);
      ValuesClean(params.value);
      ValuesShort(params.value);
      PairsLeave(file, DispositionPairs(params.value), |params.value|, name);
    }
  }

  lemma {:induction false} SkipShrinks(s: string)
    ensures |SkipSpaces(s)| <= |s|
  {
    if s != "" && IsSpace(s[0]) { SkipShrinks(s[1..]); }
  }

  /** The disposition line, up to where the filename is cut, or closed. */
  lemma FirstLineLeaves(p: FormData, x: string)
    requires LacksDelimiters(p.name) && |x| <= |p.filename| + 1
    ensures match ApplyLine(NO_FILE, DispositionOf(ParamsUpTo(p, x)))
            case None => true
            case Some(f) => Other(f.filename, p.filename)
  {
    var params := ParamsUpTo(p, x);
    var line := DispositionOf(params);
    assert NameParam(p)[0] == 'n' && params[0] == 'n';
    DispositionMatches(params);
    DispositionNotType(params);
    if DispositionParams(line).Some? {
      ValuesClean(params);
      ExtendedIsShort(p, x);
      PairsLeave(NO_FILE, DispositionPairs(params), |x| + 1, p.filename);
    }
  }

  // ---- The header lines

  /** A header block is read to its end or refused, and leaves another filename. */
  ghost predicate Leaves(h: Headers, name: string) {
    match h
    case HeadersBad => true
    case HeadersMore(_, _) => false
    case HeadersEnd(f, _) => Other(f.filename, name)
  }

  lemma TypeLeaves(p: FormData, file: FormData, rest: string)
    requires Trimmed(p.contentType) && !Contains(p.contentType, CRLF) && Fits(p) && Other(file.filename, p.filename)
    ensures Leaves(ReadHeaders(ApplyLine, file, TypeLines(p) + CRLF + rest), p.filename)
  {
    TypeComesBack(p, file, rest);
  }

  /** The lines that the rest `x` of a filename is cut into. */
  lemma {:induction false} FilenameLines(p: FormData, file: FormData, x: string, rest: string)
    requires Trimmed(p.contentType) && !Contains(p.contentType, CRLF) && Fits(p) && Other(file.filename, p.filename)
    requires |x| < |p.filename|
    ensures Leaves(ReadHeaders(ApplyLine, file, x + "\"" + CRLF + (TypeLines(p) + CRLF + rest)), p.filename)
    decreases |x|
  {
    var u := TypeLines(p) + CRLF + rest;
    var pos := Find(x, CRLF);
    FindSpec(x, CRLF);
    if pos < |x| {
      var line, x' := x[..pos], x[pos + 2..];
      BreakInside(x, pos, "\"" + CRLF, u);
      AppendAssociates(x, "\"", CRLF);
      AppendAssociates(x', "\"", CRLF);
      ReadFirst(ApplyLine, file, line, x' + "\"" + CRLF + u);
      LineLeaves(file, line, p.filename);
      if line != "" && ApplyLine(file, line).Some? {
        FilenameLines(p, ApplyLine(file, line).value, x', rest);
      }
    } else {
      var line := x + "\"";
      QuoteUnbroken(x);
      ReadFirst(ApplyLine, file, line, u);
      LineLeaves(file, line, p.filename);
      if ApplyLine(file, line).Some? {
        TypeLeaves(p, ApplyLine(file, line).value, rest);
      }
    }
  }

  lemma QuoteUnbroken(x: string)
    requires !Contains(x, CRLF)
    ensures !Contains(x + "\"", CRLF)
  {
    var s := x + "\"";
    assert s[|x|] == '\"';
    forall i: nat | i < |s| ensures !OccursAt(s, CRLF, i) {
      if i + 2 <= |x| {
        OccursInPrefix(x, "\"", CRLF, i);
        assert !OccursAt(x, CRLF, i);
      } else if i + 2 == |s| {
        assert s[i..i + 2][1] == s[i + 1];
      }
    }
  }

  /** A disposition line up to somewhere in its filename has no line break before that place. */
  lemma UpToUnbroken(p: FormData, x: string)
    requires ParamClean(p.name) && !Contains(x, CRLF)
    ensures DispositionOf(ParamsUpTo(p, x)) != "" && !Contains(DispositionOf(ParamsUpTo(p, x)), CRLF)
  {
    var prefix := DISPOSITION + NameParam(p) + "; filename=\"";
    assert '\r' !in NameParam(p);
    AppendAssociates(NameParam(p), "; filename=\"", x);
    AppendAssociates(DISPOSITION, NameParam(p), "; filename=\"" + x);
    AppendAssociates(DISPOSITION + NameParam(p), "; filename=\"", x);
    NoBreak(prefix, x);
  }

  /** From the first line on. */
  lemma HeadersLeave(p: FormData, rest: string)
    requires ParamClean(p.name) && Trimmed(p.contentType) && !Contains(p.contentType, CRLF) && Fits(p)
    requires p.filename != ""
    ensures Leaves(ReadHeaders(ApplyLine, NO_FILE, HeaderLines(p) + rest), p.filename)
  {
    var u, name := TypeLines(p) + CRLF + rest, p.filename;
    HeaderLinesShape(p, rest);
    ParamsClosed(p);
    var pos := Find(name, CRLF);
    FindSpec(name, CRLF);
    if pos < |name| {
      var a, b := name[..pos], name[pos + 2..];
      var line := DispositionOf(ParamsUpTo(p, a));
      FirstBreak(name, pos);
      UpToUnbroken(p, a);
      CutDisposition(p, a, b, u);
      ReadFirst(ApplyLine, NO_FILE, line, b + "\"" + CRLF + u);
      FirstLineLeaves(p, a);
      if ApplyLine(NO_FILE, line).Some? {
        FilenameLines(p, ApplyLine(NO_FILE, line).value, b, rest);
      }
    } else {
      QuoteUnbroken(name);
      UpToUnbroken(p, name + "\"");
      ReadFirst(ApplyLine, NO_FILE, DispositionLine(p), u);
      FirstLineLeaves(p, name + "\"");
      if ApplyLine(NO_FILE, DispositionLine(p)).Some? {
        TypeLeaves(p, ApplyLine(NO_FILE, DispositionLine(p)).value, rest);
      }
    }
  }

  lemma CutDisposition(p: FormData, a: string, b: string, u: string)
    requires p.filename == a + CRLF + b
    ensures DispositionLine(p) + CRLF + u == DispositionOf(ParamsUpTo(p, a)) + CRLF + (b + "\"" + CRLF + u)
  {
    var name, q := NameParam(p), "; filename=\"";
    ParamsClosed(p);
    var line, tail := DispositionOf(ParamsUpTo(p, a)), b + "\"";
    assert p.filename + "\"" == a + (CRLF + tail);
    AppendAssociates(q, a, CRLF + tail);
    AppendAssociates(name, q + a, CRLF + tail);
    AppendAssociates(DISPOSITION, name + (q + a), CRLF + tail);
    assert DispositionLine(p) == line + (CRLF + tail);
    AppendAssociates(line, CRLF, tail);
    AppendAssociates(line + CRLF, tail, CRLF);
    AppendAssociates(line + CRLF, tail + CRLF, u);
  }

  // ---- Runs

  /** Filenames stay as they are reported. */
  ghost predicate KeepsFilenames(before: seq<FormData>, after: seq<FormData>) {
    |before| <= |after| && forall i :: 0 <= i < |before| ==> after[i].filename == before[i].filename
  }

  lemma TurnKeepsFilenames(p: Parser)
    requires p.state <= 4 && p.pending != ""
    ensures KeepsFilenames(p.received, TurnEnd(Turn(p)).received)
  {}

  lemma {:induction false} RunKeepsFilenames(p: Parser)
    requires p.state <= 4
    ensures KeepsFilenames(p.received, Run(p).0.received)
    decreases |p.pending|, if p.state == 1 then 1 else 0
  {
    if p.pending != "" {
      RunTurns(p);
      TurnKeepsFilenames(p);
      var q := TurnEnd(Turn(p));
      if Turn(p).Next? {
        RunKeepsFilenames(q);
        KeepsTransitive(p.received, q.received, Run(q).0.received);
      }
    }
  }

  lemma KeepsTransitive(a: seq<FormData>, b: seq<FormData>, c: seq<FormData>)
    requires KeepsFilenames(a, b) && KeepsFilenames(b, c)
    ensures KeepsFilenames(a, c)
  {}

  lemma {:induction false} FeedAllKeepsFilenames(p: Parser, fragments: seq<string>)
    requires p.state <= 4
    ensures KeepsFilenames(p.received, FeedAll(p, fragments).0.received)
    decreases fragments
  {
    if fragments != [] {
      RunKeepsFilenames(More(p, fragments[0]));
      FeedAllKeepsFilenames(Feed(p, fragments[0]).0, fragments[1..]);
    }
  }

  /** Number `n` was reported with another filename than `name`. */
  ghost predicate Lost(outcome: (Parser, bool), n: nat, name: string) {
    outcome.1 ==> n < |outcome.0.received| && outcome.0.received[n].filename != name
  }

  lemma PartLosesFilename(p: Parser, part: FormData, t: string)
    requires p.state == 1 && p.lines == ApplyLine && Clean(part, p.boundary) && Fits(part) && !ParamClean(part.filename)
    requires p.pending == HeaderLines(part) + t
    ensures Lost(Run(p), |p.received|, part.filename)
  {
    var q := p.(file := NO_FILE, state := 2);
    assert HeaderLines(part) != "";
    RunTurns(p);
    RunTurns(q);
    HeadersLeave(part, t);
    if Find(p.pending, CRLF) <= HEADER_MAX_LENGTH {
      match ReadHeaders(ApplyLine, NO_FILE, p.pending) {
        case HeadersBad =>
        case HeadersMore(_, _) =>
        case HeadersEnd(f, rest) =>
          var r := q.(file := f, pending := rest, state := 3, received := p.received + [f]);
          RunKeepsFilenames(r);
      }
    }
  }

  /** A part and the delimiter line before the next one are read. */
  lemma PartThenRest(p: Parser, part: FormData, rest: seq<FormData>) returns (q: Parser)
    requires p.state == 1 && !p.valid && p.lines == ApplyLine && LegalBoundary(p.boundary)
    requires WellFormed(part, p.boundary) && rest != []
    requires p.pending == HeaderLines(part) + (part.content + CrlfDashBoundary(p.boundary) + After(rest, p.boundary))
    ensures q == p.(file := q.file, received := q.received, pending := Tail(rest, p.boundary))
    ensures |q.received| == |p.received| + 1
    ensures Run(p) == Run(q)
  {
    var next, tail := After(rest, p.boundary), Tail(rest, p.boundary);
    var r := AfterPart(p, part, next);
    q := r.(state := 1, pending := tail);
    RunPart(p, part, next);
    assert next[..2] == CRLF && next[2..] == tail;
    BoundaryTurn(r);
  }

  /** The parts in front are read. */
  lemma {:induction false} RunFirst(p: Parser, good: seq<FormData>, more: seq<FormData>) returns (q: Parser)
    requires p.state == 1 && !p.valid && p.lines == ApplyLine && LegalBoundary(p.boundary)
    requires AllWellFormed(good, p.boundary) && more != [] && p.pending == Tail(good + more, p.boundary)
    ensures q == p.(file := q.file, received := q.received, pending := Tail(more, p.boundary))
    ensures |q.received| == |p.received| + |good|
    ensures Run(p) == Run(q)
    decreases |good|
  {
    if good == [] {
      q := p;
      assert good + more == more;
    } else {
      var part, rest := good[0], good[1..];
      assert (good + more)[1..] == rest + more;
      q := PartThenRest(p, part, rest + more);
      q := RunFirst(q, rest, more);
    }
  }

  ghost predicate AllFit(parts: seq<FormData>, boundary: string) {
    AllClean(parts, boundary) && forall i :: 0 <= i < |parts| ==> Fits(parts[i])
  }

  predicate FilenamesClean(parts: seq<FormData>) {
    forall i :: 0 <= i < |parts| ==> ParamClean(parts[i].filename)
  }

  lemma {:induction false} FirstUnclean(parts: seq<FormData>) returns (i: nat)
    requires !FilenamesClean(parts)
    ensures i < |parts| && !ParamClean(parts[i].filename) && FilenamesClean(parts[..i])
  {
    if ParamClean(parts[0].filename) {
      i := FirstUnclean(parts[1..]);
      i := i + 1;
      assert parts[..i] == [parts[0]] + parts[1..][..i - 1];
    } else {
      i := 0;
    }
  }

  lemma PrefixFits(parts: seq<FormData>, boundary: string, i: nat)
    requires AllFit(parts, boundary) && i <= |parts| && FilenamesClean(parts[..i])
    ensures AllWellFormed(parts[..i], boundary)
  {
    forall j | 0 <= j < i ensures WellFormed(parts[..i][j], boundary) {
      assert parts[..i][j] == parts[j];
    }
  }

  lemma FirstLosesFilename(p: Parser, parts: seq<FormData>, n: nat, name: string)
    requires p.state == 1 && p.lines == ApplyLine && parts != [] && p.pending == Tail(parts, p.boundary)
    requires Clean(parts[0], p.boundary) && Fits(parts[0]) && !ParamClean(parts[0].filename)
    requires n == |p.received| && name == parts[0].filename
    ensures Lost(Run(p), n, name)
  {
    var part := parts[0];
    var t := part.content + CrlfDashBoundary(p.boundary) + After(parts[1..], p.boundary);
    assert p.pending == HeaderLines(part) + t;
    PartLosesFilename(p, part, t);
  }

  /** From a first delimiter line on: the first such filename is lost. */
  lemma RunLosesFilename(p: Parser, parts: seq<FormData>, i: nat, n: nat, name: string)
    requires p.state == 1 && !p.valid && p.lines == ApplyLine && LegalBoundary(p.boundary)
    requires i < |parts| && AllWellFormed(parts[..i], p.boundary) && p.pending == Tail(parts, p.boundary)
    requires Clean(parts[i], p.boundary) && Fits(parts[i]) && !ParamClean(parts[i].filename)
    requires n == |p.received| + i && name == parts[i].filename
    ensures Lost(Run(p), n, name)
  {
    var good, more := parts[..i], parts[i..];
    Rejoin(parts, i);
    var q := RunFirst(p, good, more);
    FirstLosesFilename(q, more, n, name);
  }

  /** The same for fragments. */
  lemma FragmentsLoseFilename(p: Parser, fragments: seq<string>, parts: seq<FormData>)
    requires p == Start(p.boundary).(state := 1) && LegalBoundary(p.boundary) && fragments != []
    requires AllFit(parts, p.boundary) && !FilenamesClean(parts) && Concat(fragments) == Tail(parts, p.boundary)
    ensures FeedAll(p, fragments).1 ==> FeedAll(p, fragments).0.received != parts
  {
    if FeedAll(p, fragments).1 {
      var t := Concat(fragments);
      assert "" + t == t;
      var i := FirstUnclean(parts);
      PrefixFits(parts, p.boundary, i);
      RunLosesFilename(p.(pending := t), parts, i, i, parts[i].filename);
      var k := FragmentsAgree(p, fragments, false);
      if k < |fragments| {
        var xs, ys := fragments[..k], fragments[k..];
        Rejoin(fragments, k);
        FeedAllAppend(p, xs, ys);
        FeedAllKeepsFilenames(FeedAll(p, xs).0, ys);
      }
    }
  }
}
