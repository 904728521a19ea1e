/**
 Chunked transfer coding (section 7.1 of RFC 9112) as functions of the plain byte stream: what the
 writer puts on it and what a reader makes of it.
 */
module Chunked {
  import opened Numerals
  import opened Fields
  import opened Stream
  import opened Text

  const ULONG_MAX: nat := 0xffff_ffff_ffff_ffff

  // ---- Numbers

  /** `from_i_to_hex`. */
  method FromIToHex(value: nat) returns (ret: string)
    ensures ret == Hex(value)
  {
    ret := [HexDigit(value % 16)];
    var n: nat := value / 16;
    while n > 0
      invariant Hex(value) == (if n == 0 then "" else Hex(n)) + ret
    {
      AppendAssociates(if n < 16 then "" else Hex(n / 16), [HexDigit(n % 16)], ret);
      ret := [HexDigit(n % 16)] + ret;
      n := n / 16;
    }
  }

  /** Digits at the front of a text, after a number already read. */
  function ReadHex(t: string, v: nat): (nat, nat) {
    if t != "" && HexVal(t[0]) >= 0 then
      var (n, w) := ReadHex(t[1..], 16 * v + HexVal(t[0]));
      (n + 1, w)
    else (0, v)
  }

  /**
   `strtoul` in base 16: spaces, a sign, `0x`, digits; none of these consumes anything without a
   digit. A number that is too large gives the largest, a negative one wraps around.
   */
  function StrToUl(t: string): Option<nat> {
    var u := SkipSpaces(t);
    var negative := u != "" && u[0] == '-';
    var w := if u != "" && (u[0] == '-' || u[0] == '+') then u[1..] else u;
    var x := if |w| >= 3 && w[0] == '0' && (w[1] == 'x' || w[1] == 'X') && HexVal(w[2]) >= 0 then w[2..] else w;
    var (n, v) := ReadHex(x, 0);
    if n == 0 then None
    else if v > ULONG_MAX then Some(ULONG_MAX)
    else if negative && v > 0 then Some(ULONG_MAX + 1 - v)
    else Some(v)
  }

  /** Reading a printed number goes on with the digits that follow it. */
  lemma {:induction false} HexSplit(n: nat, rest: string)
    ensures ReadHex(Hex(n) + rest, 0) == (|Hex(n)| + ReadHex(rest, n).0, ReadHex(rest, n).1)
    ensures HexVal(Hex(n)[0]) >= 0
    ensures |Hex(n)| > 1 ==> Hex(n)[0] != '0' && HexVal(Hex(n)[1]) >= 0
    ensures n > 0 ==> Hex(n)[0] != '0'
  {
    if n < 16 {
      assert ([HexDigit(n)] + rest)[1..] == rest;
    } else {
      var d := [HexDigit(n % 16)];
      HexSplit(n / 16, d + rest);
      AppendAssociates(Hex(n / 16), d, rest);
      assert (d + rest)[1..] == rest;
      assert HexVal(HexDigit(n % 16)) == n % 16;
    }
  }

  /** The size line of a chunk gives its size. */
  lemma SizeComesBack(n: nat, rest: string)
    requires n <= ULONG_MAX
    ensures StrToUl(Hex(n) + ("\r" + rest)) == Some(n)
  {
    var t := Hex(n) + ("\r" + rest);
    HexSplit(n, "\r" + rest);
    assert t[0] == Hex(n)[0];
    assert SkipSpaces(t) == t;
    assert |Hex(n)| > 1 ==> t[1] == Hex(n)[1];
    assert |Hex(n)| == 1 ==> t[1] == '\r';
  }

  // ---- The reader's grammar

  /** The line at the front of a stream and what follows it. */
  function NextLine(t: string): (r: Option<(string, string)>)
    ensures r.Some? ==> |r.value.1| < |t|
  {
    if '\n' in t then Some((FirstLine(t), t[|FirstLine(t)|..])) else None
  }

  /** Chunks up to the last one, of size zero: the content, and what follows that size line. */
  function ReadChunks(t: string): Option<(string, string)>
    decreases |t|, 0
  {
    match NextLine(t)
    case None => None
    case Some((line, rest)) => ReadSized(line, rest)
  }

  /** The same when the size line has been read. */
  function ReadSized(line: string, t: string): Option<(string, string)>
    decreases |t|, 1
  {
    match StrToUl(CString(line))
    case None => None
    case Some(size) =>
      if size == ULONG_MAX then None
      else if size == 0 then Some(("", t))
      else if |t| < size then None
      else ReadAfterChunk(t[..size], t[size..])
  }

  /** The end of line that follows the data of a chunk, and the chunks after it. */
  function ReadAfterChunk(data: string, t: string): Option<(string, string)>
    decreases |t|, 0
  {
    match NextLine(t)
    case None => None
    case Some((line, rest)) =>
      if CString(line) != CRLF then None else Before(data, ReadChunks(rest))
  }

  function Before(data: string, r: Option<(string, string)>): Option<(string, string)> {
    if r.None? then None else Some((data + r.value.0, r.value.1))
  }

  /** The field line without its last two characters. */
  function WithoutEnd(line: string): string {
    if |line| < 2 then "" else line[..|line| - 2]
  }

  /**
   The multimap of header fields, whose keys are compared without regard to case: by folded key, the
   fields as they were spelled, in insertion order.
   */
  type Headers = map<string, seq<(string, string)>>

  function AddHeader(headers: Headers, key: string, value: string): Headers {
    var k := LowerAll(key);
    headers[k := (if k in headers then headers[k] else []) + [(key, value)]]
  }

  function AddField(headers: Headers, line: string): Headers {
    match HeaderField(WithoutEnd(line))
    case None => headers
    case Some((key, value)) => AddHeader(headers, key, value)
  }

  /** Trailer fields up to the empty line. */
  function ReadTrailer(t: string, headers: Headers): Option<(Headers, string)>
    decreases |t|
  {
    match NextLine(t)
    case None => None
    case Some((line, rest)) =>
      if CString(line) == CRLF then Some((headers, rest))
      else if |line| > HEADER_MAX_LENGTH then None
      else ReadTrailer(rest, AddField(headers, line))
  }

  datatype Body = Body(content: string, headers: Headers, rest: string)

  /** A whole chunked body at the front of a stream, if there is one. */
  function ReadBody(t: string, headers: Headers): Option<Body> {
    match ReadChunks(t)
    case None => None
    case Some((content, end)) =>
      match ReadTrailer(end, headers)
      case None => None
      case Some((all, rest)) => Some(Body(content, all, rest))
  }

  // ---- The writer

  type Trailer = seq<(string, string)>

  /** What a content provider asks of its sink. */
  datatype Op = Write(data: string) | Done(trailer: Trailer)

  function Chunk(data: string): string {
    if data == "" then "" else Hex(|data|) + (CRLF + (data + CRLF))
  }

  function FieldLine(field: (string, string)): string {
    field.0 + ": " + field.1 + CRLF
  }

  function FieldLines(trailer: Trailer): string {
    if trailer == [] then "" else FieldLine(trailer[0]) + FieldLines(trailer[1..])
  }

  function Output(op: Op): string {
    match op
    case Write(data) => Chunk(data)
    case Done(trailer) => "0\r\n" + (FieldLines(trailer) + CRLF)
  }

  function Written(ops: seq<Op>): string {
    if ops == [] then "" else Output(ops[0]) + Written(ops[1..])
  }

  /** What is written before the first `Done`. */
  function ContentOf(ops: seq<Op>): string {
    if ops == [] || ops[0].Done? then "" else ops[0].data + ContentOf(ops[1..])
  }

  predicate HasDone(ops: seq<Op>) {
    exists i :: 0 <= i < |ops| && ops[i].Done?
  }

  /** The first `Done` and what comes after it. */
  function FromDone(ops: seq<Op>): (r: seq<Op>)
    requires HasDone(ops)
    ensures r != [] && r[0].Done?
  {
    if ops[0].Done? then ops else FromDone(ops[1..])
  }

  /** A trailer that a reader takes field by field. */
  predicate ReadableTrailer(trailer: Trailer) {
    forall i :: 0 <= i < |trailer| ==>
      '\n' !in trailer[i].0 && '\n' !in trailer[i].1 && |FieldLine(trailer[i])| <= HEADER_MAX_LENGTH
  }

  function AddFields(headers: Headers, trailer: Trailer): Headers
    decreases |trailer|
  {
    if trailer == [] then headers else AddFields(AddField(headers, FieldLine(trailer[0])), trailer[1..])
  }

  predicate Sized(ops: seq<Op>) {
    forall i :: 0 <= i < |ops| && ops[i].Write? ==> |ops[i].data| < ULONG_MAX
  }

  // ---- Reading what was written

  lemma NextLineOf(line: string, rest: string)
    requires line != "" && line[|line| - 1] == '\n' && '\n' !in line[..|line| - 1]
    ensures NextLine(line + rest) == Some((line, rest))
  {
    LineEnds(line, rest);
  }

  lemma NoNul(t: string)
    requires '\0' !in t
    ensures CString(t) == t
  {
    IndexOfFirst(t, '\0');
  }

  lemma {:induction false} HexClean(n: nat)
    ensures '\n' !in Hex(n) && '\0' !in Hex(n)
  {
    if n >= 16 { HexClean(n / 16); }
  }

  lemma SizeLine(n: nat, rest: string)
    requires n < ULONG_MAX
    ensures var line := Hex(n) + CRLF;
      NextLine(line + rest) == Some((line, rest)) && StrToUl(CString(line)) == Some(n)
  {
    var line := Hex(n) + CRLF;
    HexClean(n);
    assert line[..|line| - 1] == Hex(n) + "\r";
    NextLineOf(line, rest);
    NoNul(line);
    SizeComesBack(n, "\n");
    assert "\r" + "\n" == CRLF;
  }

  lemma AfterChunk(data: string, t: string)
    ensures ReadAfterChunk(data, CRLF + t) == Before(data, ReadChunks(t))
  {
    NextLineOf(CRLF, t);
    NoNul(CRLF);
  }

  lemma ChunkParts(data: string, t: string)
    requires data != ""
    ensures Chunk(data) + t == Hex(|data|) + CRLF + (data + (CRLF + t))
  {
    var h := Hex(|data|);
    AppendAssociates(h, CRLF + (data + CRLF), t);
    AppendAssociates(CRLF, data + CRLF, t);
    AppendAssociates(data, CRLF, t);
    AppendAssociates(h, CRLF, data + (CRLF + t));
  }

  lemma SizedChunk(line: string, data: string, t: string)
    requires NextLine(line + (data + t)) == Some((line, data + t))
    requires StrToUl(CString(line)) == Some(|data|) && 0 < |data| < ULONG_MAX
    ensures ReadChunks(line + (data + t)) == ReadAfterChunk(data, t)
  {
    assert (data + t)[..|data|] == data && (data + t)[|data|..] == t;
  }

  /** A chunk puts its data before the content that follows; an empty write puts nothing. */
  lemma ChunkIsRead(data: string, t: string)
    requires |data| < ULONG_MAX
    ensures ReadChunks(Chunk(data) + t) == Before(data, ReadChunks(t))
  {
    if data == "" {
      assert "" + t == t;
      assert ReadChunks(t).Some? ==> "" + ReadChunks(t).value.0 == ReadChunks(t).value.0;
    } else {
      ChunkParts(data, t);
      SizeLine(|data|, data + (CRLF + t));
      SizedChunk(Hex(|data|) + CRLF, data, CRLF + t);
      AfterChunk(data, t);
    }
  }

  lemma DoneIsRead(t: string)
    ensures ReadChunks("0\r\n" + t) == Some(("", t))
  {
    SizeLine(0, t);
    assert Hex(0) == "0" && "0" + CRLF == "0\r\n";
  }

  lemma MoreOps(ops: seq<Op>)
    requires ops != [] && ops[0].Write?
    ensures Sized(ops) ==> |ops[0].data| < ULONG_MAX && Sized(ops[1..])
    ensures HasDone(ops) <==> HasDone(ops[1..])
  {
    var more := ops[1..];
    assert forall i :: 0 <= i < |more| ==> more[i] == ops[i + 1];
    if d :| 0 <= d < |ops| && ops[d].Done? {
      assert more[d - 1].Done?;
    }
  }

  /** Without a `Done` the chunks never end. */
  lemma {:induction false} UnfinishedIsRefused(ops: seq<Op>)
    requires Sized(ops) && !HasDone(ops)
    ensures ReadChunks(Written(ops)) == None
  {
    if ops != [] {
      MoreOps(ops);
      UnfinishedIsRefused(ops[1..]);
      ChunkIsRead(ops[0].data, Written(ops[1..]));
    }
  }

  /** What follows the size line of the last chunk. */
  function AfterDone(ops: seq<Op>): string
    requires HasDone(ops)
  {
    FieldLines(FromDone(ops)[0].trailer) + (CRLF + Written(FromDone(ops)[1..]))
  }

  /** With one, the content is what was written before it. */
  lemma {:induction false} ChunksComeBack(ops: seq<Op>)
    requires Sized(ops) && HasDone(ops)
    ensures ReadChunks(Written(ops)) == Some((ContentOf(ops), AfterDone(ops)))
  {
    if ops[0].Done? {
      var lines := FieldLines(ops[0].trailer);
      var more := Written(ops[1..]);
      AppendAssociates("0\r\n", lines + CRLF, more);
      AppendAssociates(lines, CRLF, more);
      DoneIsRead(lines + (CRLF + more));
    } else {
      MoreOps(ops);
      ChunksComeBack(ops[1..]);
      ChunkIsRead(ops[0].data, Written(ops[1..]));
    }
  }

  lemma FieldLineIsRead(field: (string, string), rest: string)
    requires '\n' !in field.0 && '\n' !in field.1
    ensures NextLine(FieldLine(field) + rest) == Some((FieldLine(field), rest))
    ensures CString(FieldLine(field)) != CRLF
  {
    var line := FieldLine(field);
    assert line[..|line| - 1] == field.0 + ": " + field.1 + "\r";
    NextLineOf(line, rest);
    assert line[1] != '\n' by { assert line[..|line| - 1][1] == line[1]; }
  }

  lemma {:induction false} TrailerComesBack(trailer: Trailer, headers: Headers, rest: string)
    requires ReadableTrailer(trailer)
    ensures ReadTrailer(FieldLines(trailer) + (CRLF + rest), headers) == Some((AddFields(headers, trailer), rest))
    decreases |trailer|
  {
    if trailer == [] {
      assert "" + (CRLF + rest) == CRLF + rest;
      NextLineOf(CRLF, rest);
      NoNul(CRLF);
    } else {
      var line := FieldLine(trailer[0]);
      var more := FieldLines(trailer[1..]) + (CRLF + rest);
      AppendAssociates(line, FieldLines(trailer[1..]), CRLF + rest);
      FieldLineIsRead(trailer[0], more);
      TrailerComesBack(trailer[1..], AddField(headers, line), rest);
    }
  }

  /**
   A reader accepts what the writer has put on the stream exactly if `Done` was among the calls;
   then it gets what was written before the first `Done`, with its trailer, and stops behind it.
   */
  lemma BodyComesBack(ops: seq<Op>, headers: Headers)
    requires Sized(ops) && (HasDone(ops) ==> ReadableTrailer(FromDone(ops)[0].trailer))
    ensures ReadBody(Written(ops), headers).Some? <==> HasDone(ops)
    ensures HasDone(ops) ==>
      var end := FromDone(ops);
      (ReadBody(Written(ops), headers)
       == Some(Body(ContentOf(ops), AddFields(headers, end[0].trailer), Written(end[1..]))))
  {
    if HasDone(ops) {
      var end := FromDone(ops);
      ChunksComeBack(ops);
      TrailerComesBack(end[0].trailer, headers, Written(end[1..]));
    } else {
      UnfinishedIsRefused(ops);
    }
  }
}
