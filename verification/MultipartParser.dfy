/**
 `MultipartFormDataParser`: the incremental five-state parser over a compacting buffer,
 and the function on abstract parser states that specifies it.
 */
module MultipartParser {
  import opened Text
  import opened Fields
  import opened MultipartFormat

  /** What one header line does to the current file; `None` for a malformed line. */
  type LineReader = (FormData, string) -> Option<FormData>

  /**
   The abstract state of the parser together with what its receivers have collected:
   `pending` is the unread part of the buffer, `received` the parts reported so far, and
   `epilogue` the bytes that were dropped after the closing delimiter. Nothing about
   fragments depends on how header lines are read, so the reader is a component.
   */
  datatype Parser = Parser(
    lines: LineReader,
    boundary: string,
    state: nat,
    valid: bool,
    file: FormData,
    pending: string,
    received: seq<FormData>,
    epilogue: string)

  function Start(boundary: string): Parser {
    Parser(ApplyLine, boundary, 0, false, NO_FILE, "", [], "")
  }

  /** Content goes to the part whose header was reported last. */
  function AddContent(received: seq<FormData>, data: string): seq<FormData> {
    if received == [] then []
    else
      var last := received[|received| - 1];
      received[..|received| - 1] + [last.(content := last.content + data)]
  }

  datatype Headers =
    | HeadersMore(file: FormData, rest: string)  // more input is needed
    | HeadersEnd(file: FormData, rest: string)   // the blank line was read
    | HeadersBad

  /** The inner loop of state 2. */
  function ReadHeaders(lines: LineReader, file: FormData, t: string): Headers
    decreases |t|
  {
    var pos := Find(t, CRLF);
    if pos == |t| then HeadersMore(file, t)
    else if pos == 0 then HeadersEnd(file, t[2..])
    else
      match lines(file, t[..pos])
      case None => HeadersBad
      case Some(f) => ReadHeaders(lines, f, t[pos + 2..])
  }

  /** What follows a line, given what the line has done. */
  function HeadersAfter(lines: LineReader, file: Option<FormData>, t: string): Headers {
    match file
    case None => HeadersBad
    case Some(f) => ReadHeaders(lines, f, t)
  }

  lemma ReadHeadersStep(lines: LineReader, file: FormData, t: string, pos: nat)
    requires 0 < pos == Find(t, CRLF) < |t|
    ensures ReadHeaders(lines, file, t) == HeadersAfter(lines, lines(file, t[..pos]), t[pos + 2..])
  {}

  lemma {:induction false} ReadHeadersConsumes(lines: LineReader, file: FormData, t: string)
    ensures var h := ReadHeaders(lines, file, t);
            (h.HeadersEnd? ==> |h.rest| + 2 <= |t|) && (h.HeadersMore? ==> |h.rest| <= |t|)
    decreases |t|
  {
    var pos := Find(t, CRLF);
    if 0 < pos < |t| && lines(file, t[..pos]).Some? {
      ReadHeadersConsumes(lines, lines(file, t[..pos]).value, t[pos + 2..]);
    }
  }

  /**
   State 3: the content that can be delivered, the rest, and whether the delimiter was
   found. Without it, all but a delimiter's length is delivered.
   */
  function ScanBody(delimiter: string, t: string): (string, string, bool)
    requires 0 < |delimiter| <= |t|
  {
    var pos := Find(t, delimiter);
    if pos < |t| then (t[..pos], t[pos + |delimiter|..], true)
    else
      var len := |t| - |delimiter|;
      (t[..len], t[len..], false)
  }

  datatype Step = Next(p: Parser) | Stop(p: Parser, ok: bool)

  /** State 0. */
  function InitialStep(p: Parser): Step {
    var first := DashBoundaryCrlf(p.boundary);
    var t := p.pending[Find(p.pending, first)..];
    if |t| < |first| then Stop(p.(pending := t), true)
    else if !StartsWith(t, first) then Stop(p.(pending := t), false)
    else Next(p.(pending := t[|first|..], state := 1))
  }

  /** State 2. */
  function HeaderStep(p: Parser): Step {
    if Find(p.pending, CRLF) > HEADER_MAX_LENGTH then Stop(p, false)
    else
      match ReadHeaders(p.lines, p.file, p.pending)
      case HeadersMore(file, rest) => Stop(p.(file := file, pending := rest), true)
      case HeadersEnd(file, rest) =>
        Next(p.(file := file, pending := rest, state := 3, received := p.received + [file]))
      case HeadersBad => Stop(p.(valid := false), false)
  }

  /** State 3. */
  function BodyStep(p: Parser): Step {
    var delimiter := CrlfDashBoundary(p.boundary);
    if |p.pending| < |delimiter| then Stop(p, true)
    else
      var (content, rest, found) := ScanBody(delimiter, p.pending);
      var received := AddContent(p.received, content);
      if found then Next(p.(received := received, pending := rest, state := 4))
      else Stop(p.(received := received, pending := rest), true)
  }

  /** State 4. */
  function BoundaryStep(p: Parser): Step {
    var t := p.pending;
    if |t| < 2 then Stop(p, true)
    else if StartsWith(t, CRLF) then Next(p.(pending := t[2..], state := 1))
    else if StartsWith(t, DASH) then Next(p.(pending := "", valid := true, epilogue := t[2..]))
    else Stop(p, true)
  }

  /** One turn of the loop in `parse`. */
  function Turn(p: Parser): Step
    requires p.state <= 4 && p.pending != ""
  {
    match p.state
    case 0 => InitialStep(p)
    case 1 => Next(p.(file := NO_FILE, state := 2))
    case 2 => HeaderStep(p)
    case 3 => BodyStep(p)
    case 4 => BoundaryStep(p)
  }

  lemma TurnDecreases(p: Parser)
    requires p.state <= 4 && p.pending != "" && Turn(p).Next?
    ensures var q := Turn(p).p;
            1 <= q.state <= 4 && q.boundary == p.boundary && q.lines == p.lines
            && (|q.pending| < |p.pending| || (p.state == 1 && q.state == 2 && q.pending == p.pending))
  {
    ReadHeadersConsumes(p.lines, p.file, p.pending);
  }

  /** The loop in `parse`, with its return value. */
  function Run(p: Parser): (Parser, bool)
    requires p.state <= 4
    decreases |p.pending|, if p.state == 1 then 1 else 0
  {
    if p.pending == "" then (p, true)
    else
      match Turn(p)
      case Stop(q, ok) => (q, ok)
      case Next(q) => TurnDecreases(p); Run(q)
  }

  lemma {:induction false} RunKeepsShape(p: Parser)
    requires p.state <= 4
    ensures 1 <= p.state ==> 1 <= Run(p).0.state
    ensures Run(p).0.state <= 4 && Run(p).0.boundary == p.boundary && Run(p).0.lines == p.lines
    decreases |p.pending|, if p.state == 1 then 1 else 0
  {
    if p.pending != "" && Turn(p).Next? {
      TurnDecreases(p);
      RunKeepsShape(Turn(p).p);
    }
  }

  function Feed(p: Parser, data: string): (r: (Parser, bool))
    requires p.state <= 4
    ensures 1 <= p.state ==> 1 <= r.0.state
    ensures r.0.state <= 4 && r.0.boundary == p.boundary && r.0.lines == p.lines
  {
    var q := p.(pending := p.pending + data);
    RunKeepsShape(q);
    Run(q)
  }

  /** Successive calls of `parse`; the caller gives up at the first that fails. */
  function FeedAll(p: Parser, fragments: seq<string>): (r: (Parser, bool))
    requires p.state <= 4
    ensures 1 <= p.state ==> 1 <= r.0.state
    ensures r.0.state <= 4 && r.0.boundary == p.boundary && r.0.lines == p.lines
    decreases fragments
  {
    if fragments == [] then (p, true)
    else
      var (q, ok) := Feed(p, fragments[0]);
      if ok then FeedAll(q, fragments[1..]) else (q, false)
  }

  /** State 3 by what it delivers; to deliver nothing is to stop. */
  lemma BodyStepIs(p: Parser)
    ensures var t, d := p.pending, CrlfDashBoundary(p.boundary);
            var pos := Find(t, d);
            BodyStep(p) ==
              if |t| <= |d| && pos == |t| then Stop(p, true)
              else if pos < |t| then
                Next(p.(pending := t[pos + |d|..], received := AddContent(p.received, t[..pos]), state := 4))
              else
                Stop(p.(pending := t[|t| - |d|..], received := AddContent(p.received, t[..|t| - |d|])), true)
  {
    AddNothing(p.received);
    assert p.pending[..0] == "" && p.pending[0..] == p.pending;
  }

  // ---- The class

  class MultipartFormDataParser {
    var boundary: string
    var dashBoundaryCrlf: string
    var crlfDashBoundary: string
    var state: nat
    var isValid: bool
    var file: FormData
    var buf: string
    var spos: nat
    var epos: nat
    /** What the header and content receivers of the server have collected. */
    var received: seq<FormData>
    ghost var epilogue: string

    ghost predicate Valid()
      reads this
    {
      && dashBoundaryCrlf == DashBoundaryCrlf(boundary)
      && crlfDashBoundary == CrlfDashBoundary(boundary)
      && state <= 4
      && spos <= epos <= |buf|
    }

    ghost function View(): Parser
      reads this
      requires Valid()
    {
      Parser(ApplyLine, boundary, state, isValid, file, buf[spos..epos], received, epilogue)
    }

    constructor (boundary: string)
      ensures Valid() && View() == Start(boundary)
    {
      this.boundary := boundary;
      dashBoundaryCrlf := DashBoundaryCrlf(boundary);
      crlfDashBoundary := CrlfDashBoundary(boundary);
      state, isValid, file := 0, false, NO_FILE;
      buf, spos, epos := "", 0, 0;
      received := [];
      epilogue := "";
    }

    method BufStartWith(at: nat, s: string) returns (r: bool)
      requires Valid() && spos <= at <= epos
      ensures r == StartsWith(buf[at..epos], s)
    {
      if epos - at < |s| { return false; }
      for i := 0 to |s|
        invariant forall k :: 0 <= k < i ==> buf[at + k] == s[k]
      {
        if buf[i + at] != s[i] {
          assert buf[at..epos][..|s|][i] != s[i];
          return false;
        }
      }
      return true;
    }

    /** The buffer search: it looks for the first byte, then compares. */
    method BufFind(s: string) returns (pos: nat)
      requires Valid() && s != ""
      ensures pos == Find(buf[spos..epos], s)
    {
      var c := s[0];
      ghost var t := buf[spos..epos];
      var off := spos;
      while off < epos
        invariant spos <= off <= epos
        invariant forall k :: 0 <= k < off - spos ==> !OccursAt(t, s, k)
      {
        var p := off;
        while p < epos && buf[p] != c
          invariant off <= p <= epos
          invariant forall k :: 0 <= k < p - spos ==> !OccursAt(t, s, k)
        {
          NoOccurrence(t, s, p - spos);
          p := p + 1;
        }
        if p == epos || |s| > epos - p {
          FindNone(t, s);
          return epos - spos;
        }
        var found := BufStartWith(p, s);
        assert t[p - spos..] == buf[p..epos];
        OccursIsPrefix(t, s, p - spos);
        if found {
          FindIs(t, s, p - spos);
          return p - spos;
        }
        off := p + 1;
      }
      FindNone(t, s);
      return epos - spos;
    }

    /** The unread bytes move to the front of the buffer. */
    method Compact()
      requires Valid()
      modifies this`buf, this`spos, this`epos
      ensures Valid() && View() == old(View()) && spos == 0
    {
      var remaining := epos - spos;
      if remaining > 0 && spos > 0 {
        for i := 0 to remaining
          invariant |buf| == old(|buf|) && spos == old(spos) && epos == old(epos)
          invariant forall k :: 0 <= k < i ==> buf[k] == old(buf)[spos + k]
          invariant forall k :: i <= k < |buf| ==> buf[k] == old(buf)[k]
        {
          buf := buf[i := buf[spos + i]];
        }
      }
      spos := 0;
      epos := remaining;
    }

    method BufAppend(data: string)
      requires Valid()
      modifies this`buf, this`spos, this`epos
      ensures Valid() && View() == old(View()).(pending := old(View()).pending + data)
    {
      Compact();
      ghost var before := buf[..epos];
      if epos + |data| > |buf| {
        buf := buf + seq(epos + |data| - |buf|, _ => '\0');
      }
      for i := 0 to |data|
        invariant spos == 0 && epos == |before| && epos + |data| <= |buf|
        invariant buf[..epos + i] == before + data[..i]
      {
        buf := buf[epos + i := data[i]];
      }
      epos := epos + |data|;
    }

    method BufErase(size: nat)
      requires Valid() && size <= epos - spos
      modifies this`spos
      ensures Valid() && View() == old(View()).(pending := old(View()).pending[size..])
    {
      spos := spos + size;
    }

    /** One header line of state 2. */
    method TakeHeader(pos: nat) returns (r: bool)
      requires Valid() && 0 < pos < epos - spos && pos == Find(buf[spos..epos], CRLF)
      modifies this`file, this`isValid, this`spos
      ensures Valid() && old(spos) < spos
      ensures r ==> isValid == old(isValid)
      ensures r ==>
        ReadHeaders(ApplyLine, file, buf[spos..epos]) == ReadHeaders(ApplyLine, old(file), old(buf[spos..epos]))
      ensures !r ==> ReadHeaders(ApplyLine, old(file), old(buf[spos..epos])) == HeadersBad && !isValid
    {
      ghost var t := buf[spos..epos];
      ghost var rest := t[pos + 2..];
      var header := buf[spos..spos + pos];
      assert header == t[..pos];
      ReadHeadersStep(ApplyLine, file, t, pos);
      var f := ReadHeaderLine(file, header);
      BufErase(pos + 2);
      assert buf[spos..epos] == rest;
      if f.None? {
        isValid := false;
        return false;
      }
      file := f.value;
      return true;
    }

    /** The blank line of state 2: the file is reported. */
    method BlankLine()
      requires Valid() && 2 <= epos - spos
      modifies this`received, this`spos, this`state
      ensures Valid()
      ensures var p := old(View());
        View() == p.(pending := p.pending[2..], state := 3, received := p.received + [p.file])
    {
      received := received + [file];
      BufErase(2);
      state := 3;
    }

    /** The headers of state 2, once the first line has passed the length check. */
    method ParseHeaders(first: nat) returns (r: bool)
      requires Valid() && state == 2 && first == Find(buf[spos..epos], CRLF)
      modifies this`file, this`state, this`isValid, this`received, this`spos
      ensures Valid()
      ensures match ReadHeaders(ApplyLine, old(file), old(buf[spos..epos]))
              case HeadersMore(f, rest) => r && View() == old(View()).(file := f, pending := rest)
              case HeadersEnd(f, rest) =>
                r && View() == old(View()).(file := f, pending := rest, state := 3, received := old(received) + [f])
              case HeadersBad => !r && !isValid && received == old(received)
    {
      var pos := first;
      ghost var all := ReadHeaders(ApplyLine, file, buf[spos..epos]);
      while pos < epos - spos
        invariant Valid() && state == 2
        invariant isValid == old(isValid) && received == old(received)
        invariant pos == Find(buf[spos..epos], CRLF)
        invariant ReadHeaders(ApplyLine, file, buf[spos..epos]) == all
        decreases epos - spos
      {
        if pos == 0 {
          BlankLine();
          return true;
        }
        var ok := TakeHeader(pos);
        if !ok { return false; }
        pos := BufFind(CRLF);
      }
      return true;
    }

    /** The current state is what the turn `step` leads to from `p`; `None` means that the loop goes on. */
    ghost predicate Took(p: Parser, step: Step, outcome: Option<bool>)
      reads this
    {
      && Valid() && boundary == p.boundary
      && match step {
           case Next(q) => outcome == None && View() == q
           case Stop(q, ok) =>
             outcome == Some(ok) && (if ok then View() == q else isValid == q.valid && received == q.received)
         }
    }

    method InitialBoundary() returns (outcome: Option<bool>)
      requires Valid() && state == 0 && spos < epos
      modifies this
      ensures Took(old(View()), InitialStep(old(View())), outcome)
    {
      ghost var t := buf[spos..epos];
      var pos := BufFind(dashBoundaryCrlf);
      BufErase(pos);
      assert buf[spos..epos] == t[pos..];
      if |dashBoundaryCrlf| > epos - spos { return Some(true); }
      var starts := BufStartWith(spos, dashBoundaryCrlf);
      if !starts { return Some(false); }
      BufErase(|dashBoundaryCrlf|);
      state := 1;
      return None;
    }

    method HeaderState() returns (outcome: Option<bool>)
      requires Valid() && state == 2 && spos < epos
      modifies this
      ensures Took(old(View()), HeaderStep(old(View())), outcome)
    {
      var pos := BufFind(CRLF);
      if pos > HEADER_MAX_LENGTH { return Some(false); }
      var ok := ParseHeaders(pos);
      if !ok { return Some(false); }
      if state != 3 { return Some(true); }
      return None;
    }

    /** The content callback gets the first `len` bytes; these and `skip` more are erased. */
    method Deliver(len: nat, skip: nat)
      requires Valid() && len + skip <= epos - spos
      modifies this`received, this`spos
      ensures Valid()
      ensures var p := old(View());
        View() == p.(pending := p.pending[len + skip..], received := AddContent(p.received, p.pending[..len]))
    {
      var content := buf[spos..spos + len];
      assert content == buf[spos..epos][..len];
      received := AddContent(received, content);
      BufErase(len + skip);
    }

    /** The delimiter was found at `pos`. */
    method EndContent(pos: nat)
      requires Valid() && state == 3 && pos < epos - spos && pos == Find(View().pending, crlfDashBoundary)
      modifies this`received, this`spos, this`state
      ensures Took(old(View()), BodyStep(old(View())), None)
    {
      BodyStepIs(View());
      Deliver(pos, |crlfDashBoundary|);
      state := 4;
    }

    /** No delimiter yet: all but its length is content. */
    method GoOn()
      requires Valid() && state == 3 && |crlfDashBoundary| <= epos - spos
      requires Find(View().pending, crlfDashBoundary) == epos - spos
      modifies this`received, this`spos
      ensures Took(old(View()), BodyStep(old(View())), Some(true))
    {
      BodyStepIs(View());
      var len := epos - spos - |crlfDashBoundary|;
      if len > 0 {
        Deliver(len, 0);
      }
    }

    method BodyState() returns (outcome: Option<bool>)
      requires Valid() && state == 3 && spos < epos
      modifies this
      ensures Took(old(View()), BodyStep(old(View())), outcome)
    {
      if |crlfDashBoundary| > epos - spos { return Some(true); }
      var pos := BufFind(crlfDashBoundary);
      if pos < epos - spos {
        EndContent(pos);
        return None;
      }
      GoOn();
      return Some(true);
    }

    method BoundaryState() returns (outcome: Option<bool>)
      requires Valid() && state == 4 && spos < epos
      modifies this
      ensures Took(old(View()), BoundaryStep(old(View())), outcome)
    {
      if 2 > epos - spos { return Some(true); }
      var crlf := BufStartWith(spos, CRLF);
      if crlf {
        BufErase(2);
        state := 1;
        return None;
      }
      var dash := BufStartWith(spos, DASH);
      if !dash { return Some(true); }
      BufErase(2);
      isValid := true;
      epilogue := buf[spos..epos];
      BufErase(epos - spos);
      return None;
    }

    /** The switch over the states. */
    method OneTurn(ghost step: Step) returns (outcome: Option<bool>)
      requires Valid() && spos < epos && step == Turn(View())
      modifies this
      ensures Took(old(View()), step, outcome)
    {
      if state == 0 {
        outcome := InitialBoundary();
      } else if state == 1 {
        file := NO_FILE;
        state := 2;
        outcome := None;
      } else if state == 2 {
        outcome := HeaderState();
      } else if state == 3 {
        outcome := BodyState();
      } else {
        outcome := BoundaryState();
      }
    }

    /**
     One call of `parse`, with receivers that collect what they are given. After a
     failure only what was received and the validity flag matter: the caller gives up.
     */
    method Parse(data: string) returns (r: bool)
      requires Valid()
      modifies this
      ensures Valid() && boundary == old(boundary)
      ensures r == Feed(old(View()), data).1
      ensures r ==> View() == Feed(old(View()), data).0
      ensures !r ==> isValid == Feed(old(View()), data).0.valid && received == Feed(old(View()), data).0.received
    {
      BufAppend(data);
      ghost var goal := Run(View());
      while epos - spos > 0
        invariant Valid() && boundary == old(boundary) && goal == Run(View())
        decreases epos - spos, if state == 1 then 1 else 0
      {
        ghost var step := Turn(View());
        RunTurns(View());
        var outcome := OneTurn(step);
        if outcome.Some? { return outcome.value; }
      }
      return true;
    }
  }

  lemma AddNothing(received: seq<FormData>)
    ensures AddContent(received, "") == received
  {
    if received != [] {
      var last := received[|received| - 1];
      assert last.content + "" == last.content;
      assert received == received[..|received| - 1] + [last];
    }
  }

  lemma RunTurns(p: Parser)
    requires p.state <= 4 && p.pending != ""
    ensures match Turn(p)
            case Stop(q, ok) => Run(p) == (q, ok)
            case Next(q) =>
              && q.state <= 4 && Run(p) == Run(q)
              && (|q.pending| < |p.pending| || (p.state == 1 && q.state == 2 && q.pending == p.pending))
  {
    if Turn(p).Next? { TurnDecreases(p); }
  }

  /** An occurrence starts with the first byte of the needle. */
  lemma NoOccurrence(t: string, s: string, p: nat)
    requires s != "" && p < |t| && t[p] != s[0]
    ensures !OccursAt(t, s, p)
  {
    assert p + |s| <= |t| ==> t[p..p + |s|][0] == t[p];
  }

  lemma OccursIsPrefix(t: string, s: string, p: nat)
    requires p <= |t|
    ensures OccursAt(t, s, p) <==> StartsWith(t[p..], s)
  {
    if p + |s| <= |t| { assert t[p..][..|s|] == t[p..p + |s|]; }
  }
}
