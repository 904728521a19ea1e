/**
 What the parser reports of any bytes at all, cut in any way: names without delimiters or line
 breaks, trimmed content types of one line, and contents without the delimiter.
 */
module MultipartClean {
  import opened Text
  import opened Fields
  import opened MultipartFormat
  import opened MultipartParser
  import opened MultipartFragments
  import opened MultipartHeaders

  predicate CleanHead(f: FormData) {
    ParamClean(f.name) && Trimmed(f.contentType) && !Contains(f.contentType, CRLF)
  }

  predicate Clean(f: FormData, boundary: string) {
    CleanHead(f) && !Contains(f.content, CrlfDashBoundary(boundary))
  }

  predicate AllClean(parts: seq<FormData>, boundary: string) {
    forall i :: 0 <= i < |parts| ==> Clean(parts[i], boundary)
  }

  // ---- Header lines

  lemma ValuesClean(params: string)
    requires '\r' !in params && '\n' !in params
    ensures AllHold(DispositionPairs(params), (k, v) => ParamClean(v))
  {
    var pieces := Split(params, ';');
    SplitPieces(params, ';');
    forall q | q in pieces ensures ParamClean(TrimQuotes(KeyValue(q).1)) {
      SplitPieces(q, '=');
    }
    CollectHolds(pieces, {}, map[], TrimQuotes, (k, v) => ParamClean(v));
  }

  lemma {:induction false} TrimLeftEnds(s: string) returns (k: nat)
    ensures k <= |s| && TrimLeft(s) == s[k..]
  {
    k := 0;
    if s != "" && IsBlank(s[0]) {
      k := TrimLeftEnds(s[1..]);
      k := k + 1;
    }
  }

  lemma TrimLacks(s: string, d: string)
    requires !Contains(s, d)
    ensures Trimmed(Trim(s)) && !Contains(Trim(s), d)
  {
    var k := TrimLeftEnds(s);
    var left := TrimLeft(s);
    TrimShrinks(s);
    TrimRightShrinks(left);
    SuffixLacks(s, d, k);
    assert Trim(s) == left[..|Trim(s)|];
    PrefixLacks(left, d, |Trim(s)|);
  }

  /** A line keeps the head of the file clean. */
  lemma LineKeepsClean(file: FormData, line: string)
    requires CleanHead(file) && !Contains(line, CRLF)
    ensures match ApplyLine(file, line)
            case None => true
            case Some(f) => CleanHead(f) && f.content == file.content
  {
    var prefix := "Content-Type:";
    if StartsWithNoCase(line, prefix) {
      SuffixLacks(line, CRLF, |prefix|);
      TrimLacks(line[|prefix|..], CRLF);
    } else if DispositionParams(line).Some? {
      ValuesClean(DispositionParams(line).value);
    }
  }

  lemma {:induction false} HeadersKeepClean(file: FormData, t: string)
    requires CleanHead(file)
    ensures match ReadHeaders(ApplyLine, file, t)
            case HeadersBad => true
            case HeadersMore(f, _) => CleanHead(f) && f.content == file.content
            case HeadersEnd(f, _) => CleanHead(f) && f.content == file.content
    decreases |t|
  {
    var pos := Find(t, CRLF);
    if 0 < pos < |t| {
      var line := t[..pos];
      Rejoin(t, pos);
      BeforeBreak(line, t[pos..]);
      LineKeepsClean(file, line);
      if ApplyLine(file, line).Some? {
        HeadersKeepClean(ApplyLine(file, line).value, t[pos + 2..]);
      }
    }
  }

  // ---- Contents

  /** The content so far ends before bytes that the parser has seen and holds back. */
  ghost predicate HeldContent(content: string, pending: string, d: string) {
    content == "" || (|d| <= |pending| && !Contains(content + pending[..|d|], d))
  }

  /** An occurrence in what was delivered and what is scanned lies in what is scanned. */
  lemma OccursInScan(content: string, t: string, d: string, k: nat)
    requires HeldContent(content, t, d) && d != "" && OccursAt(content + t, d, k)
    ensures |content| <= k && OccursAt(t, d, k - |content|)
  {
    if content != "" && k < |content| {
      var held := t[..|d|];
      Rejoin(t, |d|);
      AppendAssociates(content, held, t[|d|..]);
      OccursInPrefix(content + held, t[|d|..], d, k);
      assert false;
    }
    OccursInSuffix(content, t, d, k);
  }

  /** What is delivered before the first occurrence in `t`, or before its end, joins without one. */
  lemma DeliveredLacks(content: string, t: string, d: string, n: nat)
    requires HeldContent(content, t, d) && d != "" && n <= Find(t, d)
    ensures !Contains(content + t[..n], d)
  {
    var s := content + t[..n];
    FindSpec(t, d);
    Rejoin(t, n);
    AppendAssociates(content, t[..n], t[n..]);
    forall k | 0 <= k < |s| ensures !OccursAt(s, d, k) {
      if OccursAt(s, d, k) {
        OccursInPrefix(s, t[n..], d, k);
        OccursInScan(content, t, d, k);
        assert false;
      }
    }
  }

  // ---- Every run

  ghost predicate CleanState(p: Parser) {
    var d := CrlfDashBoundary(p.boundary);
    && p.state <= 4 && p.lines == ApplyLine
    && CleanHead(p.file) && p.file.content == ""
    && AllClean(p.received, p.boundary)
    && (p.state == 3 ==> p.received != [] && HeldContent(p.received[|p.received| - 1].content, p.pending, d))
  }

  function TurnEnd(s: Step): Parser {
    match s
    case Next(p) => p
    case Stop(p, _) => p
  }

  lemma MoreStaysClean(p: Parser, y: string)
    requires CleanState(p)
    ensures CleanState(More(p, y))
  {
    var d := CrlfDashBoundary(p.boundary);
    if |d| <= |p.pending| { CutFront(p.pending, y, |d|); }
  }

  lemma BodyTurnKeepsClean(p: Parser)
    requires CleanState(p) && p.state == 3 && p.pending != ""
    ensures CleanState(TurnEnd(Turn(p)))
  {
    var t, d, n := p.pending, CrlfDashBoundary(p.boundary), |p.received| - 1;
    if |d| <= |t| {
      var (u, rest, found) := ScanBody(d, t);
      var content := p.received[n].content;
      DeliveredLacks(content, t, d, |u|);
      if !found {
        DeliveredLacks(content, t, d, |t|);
        assert rest[..|d|] == rest && t[..|t|] == t;
        Rejoin(t, |u|);
        AppendAssociates(content, u, rest);
      }
    }
  }

  lemma TurnKeepsClean(p: Parser)
    requires CleanState(p) && p.pending != ""
    ensures CleanState(TurnEnd(Turn(p)))
  {
    if p.state == 2 {
      HeadersKeepClean(p.file, p.pending);
    } else if p.state == 3 {
      BodyTurnKeepsClean(p);
    }
  }

  lemma {:induction false} RunKeepsClean(p: Parser)
    requires CleanState(p)
    ensures CleanState(Run(p).0)
    decreases |p.pending|, if p.state == 1 then 1 else 0
  {
    if p.pending != "" {
      RunTurns(p);
      TurnKeepsClean(p);
      if Turn(p).Next? { RunKeepsClean(Turn(p).p); }
    }
  }

  lemma {:induction false} FeedAllKeepsClean(p: Parser, fragments: seq<string>)
    requires CleanState(p)
    ensures CleanState(FeedAll(p, fragments).0)
    decreases fragments
  {
    if fragments != [] {
      MoreStaysClean(p, fragments[0]);
      RunKeepsClean(More(p, fragments[0]));
      FeedAllKeepsClean(Feed(p, fragments[0]).0, fragments[1..]);
    }
  }

  /** Whatever bytes arrive, however they are cut, and whether they are accepted or not. */
  lemma ReportedIsClean(boundary: string, fragments: seq<string>)
    ensures AllClean(FeedAll(Start(boundary), fragments).0.received, boundary)
  {
    FeedAllKeepsClean(Start(boundary), fragments);
  }
}
