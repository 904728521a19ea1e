/** The chunked writer and reader as they run, the reader on a buffered socket. */
module ChunkedTransfer {
  import opened Chunked
  import opened Fields
  import opened Stream
  import opened Text

  const RECV_BUFSIZ: nat := 16384

  // ---- Writing

  /** The sink that a content provider is given, with the stream it writes to. */
  class DataSink {
    var dataAvailable: bool
    var output: string
    ghost var ops: seq<Op>

    constructor ()
      ensures Valid() && dataAvailable && ops == []
    {
      dataAvailable, output, ops := true, "", [];
    }

    ghost predicate Valid()
      reads this
    {
      output == Written(ops)
    }

    /** One chunk, unless the data is empty; an empty write also ends the transfer. */
    method WriteData(data: string)
      requires Valid()
      modifies this
      ensures Valid() && ops == old(ops) + [Write(data)] && dataAvailable == (data != "")
    {
      dataAvailable := |data| > 0;
      if data != "" {
        var hex := FromIToHex(|data|);
        output := output + (hex + (CRLF + (data + CRLF)));
      }
      WrittenMore(ops, Write(data));
      assert data == "" ==> output + "" == output;
      ops := ops + [Write(data)];
    }

    method Finish(trailer: Trailer)
      requires Valid()
      modifies this
      ensures Valid() && ops == old(ops) + [Done(trailer)] && !dataAvailable
    {
      dataAvailable := false;
      WrittenMore(ops, Done(trailer));
      ghost var before := output;
      output := output + "0\r\n";
      ghost var marked := output;
      var i := 0;
      assert trailer[0..] == trailer;
      while i < |trailer|
        invariant 0 <= i <= |trailer| && output + FieldLines(trailer[i..]) == marked + FieldLines(trailer)
        invariant dataAvailable == false && ops == old(ops)
      {
        assert trailer[i..][0] == trailer[i] && trailer[i..][1..] == trailer[i + 1..];
        AppendAssociates(output, FieldLine(trailer[i]), FieldLines(trailer[i + 1..]));
        output := output + FieldLine(trailer[i]);
        i := i + 1;
      }
      assert trailer[i..] == [] && output + "" == output;
      output := output + CRLF;
      AppendAssociates(before, "0\r\n", FieldLines(trailer));
      AppendAssociates(before, "0\r\n" + FieldLines(trailer), CRLF);
      AppendAssociates("0\r\n", FieldLines(trailer), CRLF);
      ops := ops + [Done(trailer)];
    }
  }

  lemma {:induction false} WrittenMore(ops: seq<Op>, op: Op)
    ensures Written(ops + [op]) == Written(ops) + Output(op)
  {
    if ops == [] {
      assert [op][1..] == [] && [] + [op] == [op];
      assert Output(op) + "" == Output(op);
    } else {
      assert (ops + [op])[1..] == ops[1..] + [op];
      WrittenMore(ops[1..], op);
      AppendAssociates(Output(ops[0]), Written(ops[1..]), Output(op));
    }
  }

  /** What happens before the transfer ends: whole calls of the provider, while data is available. */
  function Performed(calls: seq<seq<Op>>): seq<Op> {
    if calls == [] then []
    else if Available(calls[0]) then calls[0] + Performed(calls[1..])
    else calls[0]
  }

  /** Whether more calls follow one that makes these requests. */
  predicate Available(ops: seq<Op>) {
    ops == [] || (ops[|ops| - 1].Write? && ops[|ops| - 1].data != "")
  }

  /** Some call ends the transfer. */
  predicate Ends(calls: seq<seq<Op>>) {
    calls != [] && (!Available(calls[0]) || Ends(calls[1..]))
  }

  /** `write_content_chunked`, for a provider that makes the given requests and then gives up. */
  method WriteContentChunked(calls: seq<seq<Op>>) returns (sink: DataSink, success: bool)
    ensures sink.Valid() && sink.ops == Performed(calls)
    ensures success == Ends(calls)
  {
    sink := new DataSink();
    var left := calls;
    ghost var all, ends := Performed(calls), Ends(calls);
    assert [] + all == all;
    while sink.dataAvailable
      invariant fresh(sink) && sink.Valid() && ends == (sink.dataAvailable ==> Ends(left))
      invariant sink.ops + (if sink.dataAvailable then Performed(left) else []) == all
      decreases left, sink.dataAvailable
    {
      if left == [] {
        assert sink.ops + [] == sink.ops;
        return sink, false;
      }
      ProvideNext(sink, left);
      left := left[1..];
    }
    assert sink.ops + [] == sink.ops;
    success := true;
  }

  /** One turn of the loop over the provider. */
  method ProvideNext(sink: DataSink, calls: seq<seq<Op>>)
    requires sink.Valid() && sink.dataAvailable && calls != []
    modifies sink
    ensures sink.Valid()
    ensures (sink.ops + (if sink.dataAvailable then Performed(calls[1..]) else [])
             == old(sink.ops) + Performed(calls))
    ensures Ends(calls) == (sink.dataAvailable ==> Ends(calls[1..]))
  {
    AppendAssociates(sink.ops, calls[0], Performed(calls[1..]));
    assert sink.ops + calls[0] + [] == sink.ops + calls[0];
    Provide(sink, calls[0]);
  }

  /** One call of the provider. */
  method Provide(sink: DataSink, call: seq<Op>)
    requires sink.Valid() && sink.dataAvailable
    modifies sink
    ensures sink.Valid() && sink.ops == old(sink.ops) + call && sink.dataAvailable == Available(call)
  {
    for k := 0 to |call|
      invariant sink.Valid() && sink.ops == old(sink.ops) + call[..k]
      invariant sink.dataAvailable == Available(call[..k])
    {
      CallTurn(old(sink.ops), call, k);
      PerformOp(sink, call[k]);
    }
    assert call[..|call|] == call;
  }

  method PerformOp(sink: DataSink, op: Op)
    requires sink.Valid()
    modifies sink
    ensures sink.Valid() && sink.ops == old(sink.ops) + [op]
    ensures sink.dataAvailable == (op.Write? && op.data != "")
  {
    match op
    case Write(data) => sink.WriteData(data);
    case Done(trailer) => sink.Finish(trailer);
  }

  lemma CallTurn(before: seq<Op>, call: seq<Op>, k: nat)
    requires k < |call|
    ensures before + call[..k + 1] == before + call[..k] + [call[k]]
    ensures Available(call[..k + 1]) == (call[k].Write? && call[k].data != "")
  {}

  // ---- Reading

  /** Who receives the content. */
  class Receiver {
    var content: string

    constructor ()
      ensures content == ""
    {
      content := "";
    }

    method Receive(data: string)
      modifies this
      ensures content == old(content) + data
    {
      content := content + data;
    }
  }

  /** `len` bytes of the stream, in pieces of at most the buffer's size. */
  method ReadContentWithLength(strm: SocketStream, len: nat, out: Receiver) returns (ok: bool)
    requires strm.Valid()
    modifies strm, strm.buff, strm.sock, out
    ensures strm.Valid()
    ensures ok ==> |old(strm.Pending())| >= len && strm.Pending() == old(strm.Pending())[len..]
    ensures ok ==> out.content == old(out.content) + old(strm.Pending())[..len]
    ensures strm.sock.steady && |old(strm.Pending())| >= len ==> ok
  {
    var buf := new char[RECV_BUFSIZ];
    var r := 0;
    ghost var all := strm.Pending();
    assert all[0..] == all && out.content + all[..0] == out.content;
    while r < len
      invariant strm.Valid() && fresh(buf) && buf.Length == RECV_BUFSIZ
      invariant 0 <= r <= len && r <= |all| && strm.Pending() == all[r..]
      invariant out.content == old(out.content) + all[..r]
    {
      var size := if len - r < RECV_BUFSIZ then len - r else RECV_BUFSIZ;
      var n := strm.Read(buf, size);
      if n <= 0 { return false; }
      Advance(all, r, n);
      AppendAssociates(old(out.content), all[..r], all[r..][..n]);
      out.Receive(buf[..n]);
      r := r + n;
    }
    ok := true;
  }

  lemma Advance(t: string, r: nat, n: nat)
    requires r + n <= |t|
    ensures t[r..][n..] == t[r + n..] && t[..r] + t[r..][..n] == t[..r + n]
  {}

  // ---- The chunk loop

  /** What a line reader over a stream has to offer. */
  ghost predicate Ready(reader: StreamLineReader)
    reads reader, reader.fixedBuffer, reader.strm
  {
    reader.Valid() && reader.strm.Valid()
  }

  /** The next line, as `NextLine` says; a line cut short by the end of the stream is not followed by another. */
  method ReadLine(reader: StreamLineReader) returns (ok: bool)
    requires Ready(reader)
    modifies reader, reader.fixedBuffer, reader.strm, reader.strm.buff, reader.strm.sock
    ensures Ready(reader)
    ensures ok ==> var r := NextLine(old(reader.strm.Pending()));
      if r.None? then reader.strm.Pending() == "" && '\n' !in reader.Contents() && old(reader.strm.Pending()) != ""
      else reader.Contents() == r.value.0 && reader.strm.Pending() == r.value.1
    ensures reader.strm.sock.steady && NextLine(old(reader.strm.Pending())).Some? ==> ok
  {
    ghost var all := reader.strm.Pending();
    ok := reader.GetLine();
    if ok {
      if '\n' in all {
        var line := reader.Contents();
        assert all == line + reader.strm.Pending();
        assert all[|line|..] == reader.strm.Pending();
      } else {
        assert all == reader.Contents() + "";
      }
    }
  }

  /** The data of a chunk and the end of line after it. */
  method ReadChunkData(reader: StreamLineReader, size: nat, out: Receiver) returns (ok: bool)
    requires Ready(reader) && size > 0
    modifies reader, reader.fixedBuffer, reader.strm, reader.strm.buff, reader.strm.sock, out
    ensures Ready(reader)
    ensures ok ==> |old(reader.strm.Pending())| >= size && Ended(old(reader.strm.Pending())[size..])
    ensures ok ==> reader.strm.Pending() == NextLine(old(reader.strm.Pending())[size..]).value.1
    ensures ok ==> out.content == old(out.content) + old(reader.strm.Pending())[..size]
    ensures (reader.strm.sock.steady && |old(reader.strm.Pending())| >= size
             && Ended(old(reader.strm.Pending())[size..])) ==> ok
  {
    ok := ReadContentWithLength(reader.strm, size, out);
    if !ok { return; }
    ok := ReadLine(reader);
    if !ok { return; }
    ok := CString(reader.Contents()) == CRLF;
    if ok { HasLineFeed(reader.Contents()); }
  }

  /** The stream goes on with an empty line. */
  predicate Ended(t: string) {
    NextLine(t).Some? && CString(NextLine(t).value.0) == CRLF
  }

  lemma HasLineFeed(t: string)
    requires CString(t) == CRLF
    ensures '\n' in t
  {
    assert t[1] == CString(t)[1];
  }

  /** What a turn of the chunk loop ends with. */
  datatype Turn = Failed | Last | More

  /**
   One turn of the chunk loop, after a size line: the data of the chunk, the end of line and the next
   size line. `complete` is false if the stream ended inside that line.
   */
  method ReadOneChunk(reader: StreamLineReader, out: Receiver)
    returns (turn: Turn, ghost data: string, ghost complete: bool)
    requires Ready(reader)
    modifies reader, reader.fixedBuffer, reader.strm, reader.strm.buff, reader.strm.sock, out
    ensures Ready(reader) && (!turn.Failed? ==> out.content == old(out.content) + data)
    ensures turn.Last? ==> data == "" && reader.strm.Pending() == old(reader.strm.Pending())
    ensures turn.Last? ==>
      ReadSized(old(reader.Contents()), old(reader.strm.Pending())) == Some(("", reader.strm.Pending()))
    ensures turn.More? ==> |reader.strm.Pending()| < |old(reader.strm.Pending())|
    ensures turn.More? && !complete ==> reader.strm.Pending() == ""
    ensures turn.More? ==>
      (ReadSized(old(reader.Contents()), old(reader.strm.Pending()))
       == Before(data, if complete then ReadSized(reader.Contents(), reader.strm.Pending()) else None))
    ensures reader.strm.sock.steady && ReadSized(old(reader.Contents()), old(reader.strm.Pending())).Some? ==>
      !turn.Failed?
  {
    var size := StrToUl(CString(reader.Contents()));
    data, complete := "", false;
    assert out.content + "" == out.content;
    if size == None || size == Some(ULONG_MAX) { return Failed, data, complete; }
    if size == Some(0) { return Last, data, complete; }
    ghost var t := reader.strm.Pending();
    SizedMeans(reader.Contents(), t, size.value);
    var ok := ReadChunkData(reader, size.value, out);
    if !ok { return Failed, data, complete; }
    data := t[..size.value];
    complete := NextLine(reader.strm.Pending()).Some?;
    ok := ReadLine(reader);
    turn := if ok then More else Failed;
  }

  /**
   The loop over chunks. On success it has found what `ReadChunks` finds, unless the stream ended
   inside the last size line; then nothing is left to be read.
   */
  method ReadChunkLoop(reader: StreamLineReader, out: Receiver) returns (ok: bool)
    requires Ready(reader)
    modifies reader, reader.fixedBuffer, reader.strm, reader.strm.buff, reader.strm.sock, out
    ensures Ready(reader)
    ensures ok ==> var r := ReadChunks(old(reader.strm.Pending()));
      if r.None? then reader.strm.Pending() == ""
      else out.content == old(out.content) + r.value.0 && reader.strm.Pending() == r.value.1
    ensures reader.strm.sock.steady && ReadChunks(old(reader.strm.Pending())).Some? ==> ok
  {
    ghost var all := ReadChunks(reader.strm.Pending());
    ghost var done := "";
    ghost var complete := NextLine(reader.strm.Pending()).Some?;
    ok := ReadLine(reader);
    if !ok { return; }
    NothingBefore(all);
    assert out.content + "" == out.content;
    while true
      invariant Ready(reader) && out.content == old(out.content) + done
      invariant complete ==> Before(done, ReadSized(reader.Contents(), reader.strm.Pending())) == all
      invariant !complete ==> all == None && reader.strm.Pending() == ""
      decreases |reader.strm.Pending()|
    {
      var turn: Turn;
      ghost var data, still;
      turn, data, still := ReadOneChunk(reader, out);
      if turn.Failed? { return false; }
      if turn.Last? {
        assert done + "" == done;
        return true;
      }
      ChunkTurn(done, data, if still then ReadSized(reader.Contents(), reader.strm.Pending()) else None);
      AppendAssociates(old(out.content), done, data);
      done, complete := done + data, complete && still;
    }
  }

  lemma SizedMeans(line: string, t: string, size: nat)
    requires StrToUl(CString(line)) == Some(size) && 0 < size && size != ULONG_MAX
    ensures ReadSized(line, t).Some? ==> |t| >= size && Ended(t[size..])
    ensures |t| >= size && Ended(t[size..]) ==>
      ReadSized(line, t) == Before(t[..size], ReadChunks(NextLine(t[size..]).value.1))
  {
    if |t| >= size {
      var data := t[..size];
      assert ReadSized(line, t) == ReadAfterChunk(data, t[size..]);
    }
  }

  lemma NothingBefore(r: Option<(string, string)>)
    ensures Before("", r) == r
  {
    assert r.Some? ==> "" + r.value.0 == r.value.0;
  }

  lemma ChunkTurn(done: string, data: string, r: Option<(string, string)>)
    ensures Before(done, Before(data, r)) == Before(done + data, r)
  {
    if r.Some? { AppendAssociates(done, data, r.value.0); }
  }

  /** The loop over trailer fields. */
  method ReadTrailerLoop(reader: StreamLineReader, headers: Headers) returns (ok: bool, all: Headers)
    requires Ready(reader)
    modifies reader, reader.fixedBuffer, reader.strm, reader.strm.buff, reader.strm.sock
    ensures Ready(reader)
    ensures ok ==> ReadTrailer(old(reader.strm.Pending()), headers) == Some((all, reader.strm.Pending()))
    ensures reader.strm.sock.steady && ReadTrailer(old(reader.strm.Pending()), headers).Some? ==> ok
  {
    all := headers;
    ghost var goal := ReadTrailer(reader.strm.Pending(), headers);
    ghost var complete := NextLine(reader.strm.Pending()).Some?;
    ok := ReadLine(reader);
    if !ok { return; }
    while CString(reader.Contents()) != CRLF
      invariant Ready(reader)
      invariant complete ==> ReadFields(reader.Contents(), reader.strm.Pending(), all) == goal
      invariant !complete ==> goal == None && reader.strm.Pending() == "" && '\n' !in reader.Contents()
      decreases |reader.strm.Pending()|
    {
      if |reader.Contents()| > HEADER_MAX_LENGTH { return false, all; }
      all := AddLine(all, reader.Contents());
      complete := complete && NextLine(reader.strm.Pending()).Some?;
      ok := ReadLine(reader);
      if !ok { return; }
    }
    HasLineFeed(reader.Contents());
  }

  method AddLine(headers: Headers, line: string) returns (all: Headers)
    ensures all == AddField(headers, line)
  {
    all := headers;
    var field := ParseHeader(WithoutEnd(line));
    if field.Some? {
      all := AddHeader(all, field.value.0, field.value.1);
    }
  }

  /** Trailer fields when the first line has been read. */
  function ReadFields(line: string, t: string, headers: Headers): Option<(Headers, string)> {
    if CString(line) == CRLF then Some((headers, t))
    else if |line| > HEADER_MAX_LENGTH then None
    else ReadTrailer(t, AddField(headers, line))
  }

  /**
   `read_content_chunked`: what it accepts is a chunked body of the byte stream, whatever pieces the
   socket delivers; and on a socket that does not fail it accepts every chunked body.
   */
  method ReadContentChunked(strm: SocketStream, headers: Headers, out: Receiver) returns (ok: bool, all: Headers)
    requires strm.Valid()
    modifies strm, strm.buff, strm.sock, out
    ensures strm.Valid()
    ensures ok ==> ReadBody(old(strm.Pending()), headers).Some?
    ensures (ok ==> var body := ReadBody(old(strm.Pending()), headers).value;
               out.content == old(out.content) + body.content && all == body.headers && strm.Pending() == body.rest)
    ensures strm.sock.steady && ReadBody(old(strm.Pending()), headers).Some? ==> ok
  {
    var buf := new char[16];
    var reader := new StreamLineReader(strm, buf);
    ok := ReadChunkLoop(reader, out);
    all := headers;
    if !ok { return; }
    ok, all := ReadTrailerLoop(reader, headers);
  }

  /**
   The two together. What a reader with any pattern of short reads makes of the bytes that a provider
   has caused: it succeeds exactly if `Done` was performed, and gets what was written before it.
   */
  method Transfer(calls: seq<seq<Op>>, headers: Headers) returns (ok: bool, content: string, all: Headers)
    requires Sized(Performed(calls))
    requires HasDone(Performed(calls)) ==> ReadableTrailer(FromDone(Performed(calls))[0].trailer)
    ensures ok <==> HasDone(Performed(calls))
    ensures ok ==> content == ContentOf(Performed(calls))
    ensures ok ==> all == AddFields(headers, FromDone(Performed(calls))[0].trailer)
  {
    var sink, success := WriteContentChunked(calls);
    var sock := new Socket(sink.output, true);
    var strm := new SocketStream(sock);
    var out := new Receiver();
    BodyComesBack(sink.ops, headers);
    ok, all := ReadContentChunked(strm, headers, out);
    content := out.content;
    assert ok ==> "" + ContentOf(Performed(calls)) == ContentOf(Performed(calls));
  }

  /** The first call that ends the transfer is number `n`, it ends in an empty write, and nothing so far was `Done`. */
  predicate EndsEmpty(calls: seq<seq<Op>>, n: nat) {
    && n < |calls|
    && (forall i :: 0 <= i < n ==> Available(calls[i]))
    && calls[n] != [] && calls[n][|calls[n]| - 1] == Write("")
    && (forall i :: 0 <= i <= n ==> !HasDone(calls[i]))
  }

  lemma HasDoneEither(a: seq<Op>, b: seq<Op>)
    ensures HasDone(a + b) <==> HasDone(a) || HasDone(b)
  {
    if i :| 0 <= i < |a| && a[i].Done? { assert (a + b)[i].Done?; }
    if i :| 0 <= i < |b| && b[i].Done? { assert (a + b)[|a| + i].Done?; }
  }

  /** The transfer ends without a `Done` exactly in this way. */
  lemma {:induction false} EndsWithoutDone(calls: seq<seq<Op>>)
    ensures Ends(calls) && !HasDone(Performed(calls)) <==> exists n: nat :: EndsEmpty(calls, n)
    decreases |calls|
  {
    if calls != [] {
      var more := calls[1..];
      if Available(calls[0]) {
        HasDoneEither(calls[0], Performed(more));
        EndsWithoutDone(more);
        forall n: nat | n > 0 ensures EndsEmpty(calls, n) <==> !HasDone(calls[0]) && EndsEmpty(more, n - 1) {
          LaterCall(calls, n);
        }
        assert !EndsEmpty(calls, 0);
        if n: nat :| EndsEmpty(more, n) {
          assert EndsEmpty(calls, n + 1) <==> !HasDone(calls[0]) && EndsEmpty(more, n + 1 - 1);
        }
      } else {
        var last := calls[0][|calls[0]| - 1];
        assert last.Done? ==> HasDone(calls[0]);
        assert !HasDone(calls[0]) <==> EndsEmpty(calls, 0);
      }
    }
  }

  lemma LaterCall(calls: seq<seq<Op>>, n: nat)
    requires calls != [] && Available(calls[0]) && n > 0
    ensures EndsEmpty(calls, n) <==> !HasDone(calls[0]) && EndsEmpty(calls[1..], n - 1)
  {
    var more := calls[1..];
    if n < |calls| {
      assert forall i :: 0 < i <= n ==> calls[i] == more[i - 1];
      assert forall i :: 0 <= i < n ==> more[i] == calls[i + 1];
    }
  }

  /**
   For every provider: it is told that all went well, and yet the stream has no end, exactly if the
   first call that ended the transfer ended in an empty write and no request so far was `Done`.
   */
  lemma EmptyWriteLeavesNoEnd(calls: seq<seq<Op>>, headers: Headers)
    requires Sized(Performed(calls))
    requires HasDone(Performed(calls)) ==> ReadableTrailer(FromDone(Performed(calls))[0].trailer)
    ensures (Ends(calls) && ReadBody(Written(Performed(calls)), headers) == None)
       <==> exists n: nat :: EndsEmpty(calls, n)
  {
    BodyComesBack(Performed(calls), headers);
    EndsWithoutDone(calls);
  }
}
