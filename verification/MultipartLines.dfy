/**
 The lines of a multipart body: where a line that looks like a delimiter can stand, and what
 the parser makes of a delimiter that it meets among header lines or in a content.
 */
module MultipartLines {
  import opened Text
  import opened Fields
  import opened MultipartFormat
  import opened MultipartParser
  import opened MultipartFragments
  import opened MultipartRoundTrip
  import MultipartHeaders

  function DashBoundary(boundary: string): string {
    DASH + boundary
  }

  // ---- Where a delimiter line can stand

  /** No line break inside `s`. */
  ghost predicate OneLine(s: string) {
    '\r' !in s && '\n' !in s
  }

  lemma BoundaryIsOneLine(boundary: string)
    requires LegalBoundary(boundary)
    ensures OneLine(DashBoundary(boundary)) && ':' !in DashBoundary(boundary) && '\"' !in DashBoundary(boundary)
  {
    var s := DashBoundary(boundary);
    forall i | 0 <= i < |s| ensures s[i] != '\r' && s[i] != '\n' && s[i] != ':' && s[i] != '\"' {
      if 2 <= i { assert s[i] == boundary[i - 2]; }
    }
  }

  /**
   A line `mark` in a text that goes on, after `c`, with a line break and `rest`: it ends in
   `c`, or with `c`, or begins in `rest`.
   */
  lemma Peel(c: string, rest: string, u: string, mark: string, w: string) returns (v: string)
    requires OneLine(mark)
    requires u + (mark + CRLF) + w == c + CRLF + rest
    ensures var k := |u| + |mark| + 2;
            if k <= |c| then OccursAt(c, CRLF, k - 2) && w == c[k..] + CRLF + rest
            else if k == |c| + 2 then w == rest && c == u + mark
            else rest == v + (mark + CRLF) + w
  {
    var t, d := u + (mark + CRLF) + w, mark + CRLF;
    var i := |u| + |mark|;
    v := "";
    assert t[i] == '\r' && t[i + 1] == '\n' && t[|c|] == '\r' && t[|c| + 1] == '\n';
    assert t[i + 2..] == w && t[|c| + 2..] == rest;
    if i + 2 <= |c| {
      assert c[i..i + 2] == t[i..i + 2] == CRLF;
      assert (c + CRLF + rest)[i + 2..] == c[i + 2..] + CRLF + rest;
    } else if i == |c| {
      assert t[..i] == u + mark && t[..|c|] == c;
    } else {
      assert |c| + 2 <= i;
      assert |c| + 2 <= |u|;
      v := t[|c| + 2..|u|];
      assert u == t[..|u|] && t[|c| + 2..] == v + t[|u|..];
      assert t[|u|..] == d + w;
      AppendAssociates(v, d, w);
    }
  }

  // ---- A delimiter that is read as a header line

  lemma NoColonNoField(file: FormData, line: string)
    requires ':' !in line
    ensures ApplyLine(file, line) == None
  {
    var t := TrimRight(line);
    MultipartHeaders.TrimRightShrinks(line);
    assert forall k :: 0 <= k < |t| ==> t[k] == line[k];
    IndexOfIs(t, ':', "");
    assert RawField(line) == None;
  }

  /** Reading header lines goes on like this behind the first one. */
  function AfterLine(lines: LineReader, file: FormData, line: string, t: string): Headers {
    if line == "" then HeadersEnd(file, t) else HeadersAfter(lines, lines(file, line), t)
  }

  lemma ReadFirst(lines: LineReader, file: FormData, line: string, t: string)
    requires !Contains(line, CRLF)
    ensures ReadHeaders(lines, file, line + CRLF + t) == AfterLine(lines, file, line, t)
  {
    var s := line + CRLF + t;
    FindBefore(line, CRLF, t);
    assert s[..|line|] == line && s[|line| + 2..] == t;
  }

  lemma OneLineUnbroken(s: string)
    requires OneLine(s)
    ensures !Contains(s, CRLF)
  {
    NoReturnNoBreak(s);
  }

  /** What stands on the line of a delimiter besides `--boundary`, and what follows the line. */
  function LineEnd(rest: seq<FormData>): string {
    if rest == [] then DASH else ""
  }

  function NextLines(rest: seq<FormData>, boundary: string): string {
    if rest == [] then "" else Tail(rest, boundary)
  }

  lemma DelimiterLine(boundary: string, rest: seq<FormData>)
    requires LegalBoundary(boundary)
    ensures var line := DashBoundary(boundary) + LineEnd(rest);
            && OneLine(line) && ':' !in line && line != ""
            && DashBoundary(boundary) + After(rest, boundary) == line + CRLF + NextLines(rest, boundary)
  {
    BoundaryIsOneLine(boundary);
    var mark, next := DashBoundary(boundary), NextLines(rest, boundary);
    assert After(rest, boundary) == LineEnd(rest) + CRLF + next;
    AppendAssociates(mark, LineEnd(rest) + CRLF, next);
    AppendAssociates(mark, LineEnd(rest), CRLF);
  }

  lemma DelimiterIsBad(file: FormData, boundary: string, rest: seq<FormData>)
    requires LegalBoundary(boundary)
    ensures ReadHeaders(ApplyLine, file, DashBoundary(boundary) + After(rest, boundary)) == HeadersBad
  {
    var line, next := DashBoundary(boundary) + LineEnd(rest), NextLines(rest, boundary);
    DelimiterLine(boundary, rest);
    OneLineUnbroken(line);
    NoColonNoField(file, line);
    ReadFirst(ApplyLine, file, line, next);
  }

  // ---- Header lines read from inside a content

  lemma ContentKept(file: FormData, line: string)
    ensures ApplyLine(file, line).Some? ==> ApplyLine(file, line).value.content == file.content
  {}

  lemma DelimiterShapes(c: string, boundary: string, next: string)
    ensures CrlfDashBoundary(boundary) == CRLF + DashBoundary(boundary)
    ensures c + CrlfDashBoundary(boundary) + next == c + CRLF + (DashBoundary(boundary) + next)
  {
    AppendAssociates(CRLF, DASH, boundary);
    AppendAssociates(c, CRLF, DashBoundary(boundary));
    AppendAssociates(c + CRLF, DashBoundary(boundary), next);
  }

  /**
   Header lines read from the middle of a content: they are refused, or end at a blank line
   in the content, or at the line break of the delimiter.
   */
  lemma {:induction false} HeadersInside(file: FormData, c: string, boundary: string, rest: seq<FormData>)
    returns (c': string)
    requires LegalBoundary(boundary) && !Contains(c, CrlfDashBoundary(boundary))
    ensures var next := After(rest, boundary);
            match ReadHeaders(ApplyLine, file, c + CrlfDashBoundary(boundary) + next)
            case HeadersMore(_, _) => false
            case HeadersBad => true
            case HeadersEnd(f, t) =>
              && f.content == file.content
              && (t == DashBoundary(boundary) + next
                  || (t == c' + CrlfDashBoundary(boundary) + next && |c'| < |c|
                      && !Contains(c', CrlfDashBoundary(boundary))))
    decreases |c|
  {
    var mark, d, next := DashBoundary(boundary), CrlfDashBoundary(boundary), After(rest, boundary);
    var pos := Find(c, CRLF);
    FindSpec(c, CRLF);
    c' := "";
    if pos < |c| {
      var line := c[..pos];
      c' := c[pos + 2..];
      BreakInside(c, pos, d, next);
      ReadFirst(ApplyLine, file, line, c' + d + next);
      SuffixLacks(c, d, pos + 2);
      ContentKept(file, line);
      if line != "" && ApplyLine(file, line).Some? {
        c' := HeadersInside(ApplyLine(file, line).value, c', boundary, rest);
      }
    } else {
      DelimiterShapes(c, boundary, next);
      ReadFirst(ApplyLine, file, c, mark + next);
      ContentKept(file, c);
      if c != "" && ApplyLine(file, c).Some? {
        DelimiterIsBad(ApplyLine(file, c).value, boundary, rest);
      }
    }
  }

  lemma FirstBreak(c: string, pos: nat)
    requires pos == Find(c, CRLF) < |c|
    ensures !Contains(c[..pos], CRLF) && c == c[..pos] + CRLF + c[pos + 2..]
  {
    FindSpec(c, CRLF);
    assert c[pos..pos + 2] == CRLF;
    CutTwice(c, pos, pos + 2);
    BeforeBreak(c[..pos], c[pos..]);
  }

  lemma BreakInside(c: string, pos: nat, d: string, next: string)
    requires pos == Find(c, CRLF) < |c|
    ensures !Contains(c[..pos], CRLF)
    ensures c + d + next == c[..pos] + CRLF + (c[pos + 2..] + d + next)
  {
    FirstBreak(c, pos);
    var line, c' := c[..pos], c[pos + 2..];
    AppendAssociates(line + CRLF, c', d);
    AppendAssociates(line + CRLF, c' + d, next);
  }

  // ---- A delimiter whose line break was taken for a blank line

  lemma OccursInTwo(t: string, a: string, b: string, k: nat)
    ensures OccursAt(t, a + b, k) <==> OccursAt(t, a, k) && OccursAt(t, b, k + |a|)
  {
    if k + |a + b| <= |t| {
      var x, y := t[k..k + |a|], t[k + |a|..k + |a| + |b|];
      assert t[k..k + |a + b|] == x + y && (x + y)[..|a|] == x && (x + y)[|a|..] == y;
      assert (a + b)[..|a|] == a && (a + b)[|a|..] == b;
    }
  }

  /** The first line break of `line + CRLF + rest` is the only one up to there. */
  lemma BreakAt(line: string, mark: string, rest: string, k: nat)
    requires !Contains(line, CRLF) && k < |line| + 2
    ensures OccursAt(line + CRLF + rest, CRLF + mark, k) <==> k == |line| && StartsWith(rest, mark)
  {
    var t := line + CRLF + rest;
    OccursInTwo(t, CRLF, mark, k);
    FindBefore(line, CRLF, rest);
    FindSpec(t, CRLF);
    if k == |line| {
      OccursInSuffix(line + CRLF, rest, mark, k + 2);
    } else if k == |line| + 1 {
      assert t[k] == '\n' && (k + 2 <= |t| ==> t[k..k + 2][0] == t[k]);
    }
  }

  /** Looking for the delimiter, a line can be skipped unless `--boundary` follows it. */
  lemma FindPastLine(line: string, boundary: string, rest: string)
    requires !Contains(line, CRLF)
    ensures var d := CrlfDashBoundary(boundary);
            Find(line + CRLF + rest, d)
            == if StartsWith(rest, DashBoundary(boundary)) then |line| else |line| + 2 + Find(rest, d)
  {
    var mark, head := DashBoundary(boundary), line + CRLF;
    var d, t := CRLF + mark, head + rest;
    DelimiterShapes("", boundary, "");
    forall k | 0 <= k < |head| ensures OccursAt(t, d, k) <==> k == |line| && StartsWith(rest, mark) {
      BreakAt(line, mark, rest, k);
    }
    if StartsWith(rest, mark) {
      FindIs(t, d, |line|);
    } else {
      FindAfter(head, rest, d);
    }
  }

  /** The same for all header lines of a part. */
  lemma FindPastHeaders(part: FormData, boundary: string, rest: string)
    requires WellFormed(part, boundary)
    ensures var d, h := CrlfDashBoundary(boundary), |HeaderLines(part)|;
            Find(HeaderLines(part) + rest, d)
            == if StartsWith(rest, DashBoundary(boundary)) then h - 2 else h + Find(rest, d)
  {
    var mark, types := DashBoundary(boundary), TypeLines(part) + CRLF + rest;
    assert mark[0] == '-';
    HeaderLinesShape(part, rest);
    DispositionUnbroken(part);
    FindPastLine(DispositionLine(part), boundary, types);
    FindPastLine("", boundary, rest);
    assert "" + CRLF + rest == CRLF + rest;
    if part.contentType == "" {
      assert types == CRLF + rest && types[0] == '\r';
    } else {
      AppendAssociates(TypeLine(part) + CRLF, CRLF, rest);
      assert types[0] == 'C' && (CRLF + rest)[0] == '\r';
      NoBreak("Content-Type: ", part.contentType);
      FindPastLine(TypeLine(part), boundary, CRLF + rest);
    }
  }

  lemma SwallowedMore(g: string, h: string, c: string, boundary: string, last: string)
    requires StartsWith(c, DashBoundary(boundary)) && 2 <= |h| && h[|h| - 2..] == CRLF
    ensures var mark, d := DashBoundary(boundary), CrlfDashBoundary(boundary);
            g + (h + (c + d + last)) == (g + h[..|h| - 2]) + d + (c[|mark|..] + d + last)
    ensures StartsWith(c + CrlfDashBoundary(boundary) + last, DashBoundary(boundary))
  {
    var mark, d := DashBoundary(boundary), CrlfDashBoundary(boundary);
    var h', c' := h[..|h| - 2], c[|mark|..];
    var tail := c' + d + last;
    DelimiterShapes(g + h', boundary, tail);
    assert h == h' + CRLF && c == mark + c';
    AppendAssociates(mark, c', d);
    AppendAssociates(mark, c' + d, last);
    assert (mark + tail)[..|mark|] == mark;
    AppendAssociates(g, h', CRLF);
    AppendAssociates(g, h, mark + tail);
  }

  lemma SwallowedAll(g: string, h: string, c: string, d: string, last: string)
    ensures g + (h + (c + d + last)) == (g + h + c) + d + last
  {
    AppendAssociates(g, h, c + d + last);
    AppendThree(g + h, c, d, last);
    AppendAssociates(g + h + c, d, last);
  }

  lemma NotMark(c: string, boundary: string, last: string)
    requires LegalBoundary(boundary) && !StartsWith(c, DashBoundary(boundary))
    ensures !StartsWith(c + CrlfDashBoundary(boundary) + last, DashBoundary(boundary))
  {
    var mark, t := DashBoundary(boundary), c + CrlfDashBoundary(boundary) + last;
    BoundaryIsOneLine(boundary);
    if |c| < |mark| {
      assert t[|c|] == '\r' && mark[|c|] in mark;
      assert |mark| <= |t| ==> t[..|mark|][|c|] == t[|c|];
    } else {
      assert t[..|mark|] == c[..|mark|];
    }
  }

  // ---- Where a line can end

  /** Where a line `mark` can end in the header lines of a part, or else it is behind them. */
  lemma PeelHeaders(part: FormData, boundary: string, rest: string, u: string, mark: string, w: string)
    returns (v: string)
    requires WellFormed(part, boundary) && OneLine(mark) && '\"' !in mark
    requires u + (mark + CRLF) + w == HeaderLines(part) + rest
    ensures || (mark == "" && (w == TypeLines(part) + CRLF + rest || w == rest))
            || (part.contentType != "" && w == CRLF + rest)
            || rest == v + (mark + CRLF) + w
  {
    var line, types := DispositionLine(part), TypeLines(part) + CRLF + rest;
    HeaderLinesShape(part, rest);
    DispositionUnbroken(part);
    assert line[|line| - 1] == '\"' && (mark != "" ==> (u + mark)[|u + mark| - 1] in mark);
    v := Peel(line, types, u, mark, w);
    if |u| + |mark| + 2 > |line| + 2 {
      v := PeelTypes(part, rest, v, mark, w);
    }
  }

  /** The same behind the first header line. */
  lemma PeelTypes(part: FormData, rest: string, u: string, mark: string, w: string) returns (v: string)
    requires !Contains(part.contentType, CRLF) && OneLine(mark)
    requires TypeLines(part) + CRLF + rest == u + (mark + CRLF) + w
    ensures || (mark == "" && w == rest)
            || (part.contentType != "" && w == CRLF + rest)
            || rest == v + (mark + CRLF) + w
  {
    assert "" + CRLF + rest == CRLF + rest;
    if part.contentType == "" {
      v := Peel("", rest, u, mark, w);
    } else {
      HeaderLinesShape(part, rest);
      AppendAssociates(TypeLine(part) + CRLF, CRLF, rest);
      NoBreak("Content-Type: ", part.contentType);
      v := Peel(TypeLine(part), CRLF + rest, u, mark, w);
      if |u| + |mark| + 2 > |TypeLine(part)| + 2 {
        v := Peel("", rest, v, mark, w);
      }
    }
  }

  datatype Place = InContent | AtDelimiter | AtNextPart | Later

  /** The same from the line of a delimiter. */
  lemma PeelDelimiter(boundary: string, rest: seq<FormData>, u: string, mark: string, w: string)
    returns (place: Place, v: string)
    requires LegalBoundary(boundary) && OneLine(mark)
    requires DashBoundary(boundary) + After(rest, boundary) == u + (mark + CRLF) + w
    ensures match place
            case AtNextPart => w == NextLines(rest, boundary)
            case Later => rest != [] && v + (mark + CRLF) + w == Tail(rest, boundary)
            case _ => false
  {
    var line := DashBoundary(boundary) + LineEnd(rest);
    DelimiterLine(boundary, rest);
    OneLineUnbroken(line);
    v := Peel(line, NextLines(rest, boundary), u, mark, w);
    place := if |u| + |mark| == |line| then AtNextPart else Later;
  }

  lemma ContentCut(c: string, k: nat, boundary: string, next: string) returns (v: string)
    requires k <= |c| && !Contains(c, CrlfDashBoundary(boundary))
    ensures |v| == |c| - k && !Contains(v, CrlfDashBoundary(boundary))
    ensures c[k..] + CRLF + (DashBoundary(boundary) + next) == v + CrlfDashBoundary(boundary) + next
  {
    v := c[k..];
    DelimiterShapes(v, boundary, next);
    SuffixLacks(c, CrlfDashBoundary(boundary), k);
  }

  lemma PeelBody(c: string, boundary: string, next: string, u: string, mark: string, w: string) returns (v: string)
    requires OneLine(mark) && u + (mark + CRLF) + w == c + CrlfDashBoundary(boundary) + next
    requires !Contains(c, CrlfDashBoundary(boundary))
    ensures var k := |u| + |mark| + 2;
            if k <= |c| then
              |v| == |c| - k && !Contains(v, CrlfDashBoundary(boundary)) && w == v + CrlfDashBoundary(boundary) + next
            else if k == |c| + 2 then w == DashBoundary(boundary) + next
            else DashBoundary(boundary) + next == v + (mark + CRLF) + w
  {
    var k := |u| + |mark| + 2;
    DelimiterShapes(c, boundary, next);
    v := Peel(c, DashBoundary(boundary) + next, u, mark, w);
    if k <= |c| { v := ContentCut(c, k, boundary, next); }
  }

  /** Where it can end from the start of a content: in it, at its delimiter, or in later lines. */
  lemma PeelContent(c: string, boundary: string, rest: seq<FormData>, u: string, mark: string, w: string)
    returns (place: Place, v: string)
    requires LegalBoundary(boundary) && OneLine(mark)
    requires u + (mark + CRLF) + w == c + CrlfDashBoundary(boundary) + After(rest, boundary)
    requires !Contains(c, CrlfDashBoundary(boundary))
    ensures match place
            case InContent =>
              && |mark| + 2 <= |c| - |v| && !Contains(v, CrlfDashBoundary(boundary))
              && w == v + CrlfDashBoundary(boundary) + After(rest, boundary)
            case AtDelimiter => w == DashBoundary(boundary) + After(rest, boundary)
            case AtNextPart => w == NextLines(rest, boundary)
            case Later => rest != [] && v + (mark + CRLF) + w == Tail(rest, boundary)
  {
    var k := |u| + |mark| + 2;
    v := PeelBody(c, boundary, After(rest, boundary), u, mark, w);
    if k <= |c| {
      place := InContent;
    } else if k == |c| + 2 {
      place := AtDelimiter;
    } else {
      place, v := PeelDelimiter(boundary, rest, v, mark, w);
    }
  }
}
