/** Buffered reading from a socket, and lines on top of it, against the plain stream of bytes. */
module Stream {
  import opened Text

  const READ_BUFF_SIZE: nat := 4096

  /**
   A connected socket: `wire` is what the peer has sent or will send before it closes. A read takes
   any non-empty part of it, or fails. A steady socket does not fail while something is to come.
   */
  class Socket {
    var wire: string
    const steady: bool

    constructor (wire: string, steady: bool)
      ensures this.wire == wire && this.steady == steady
    {
      this.wire := wire;
      this.steady := steady;
    }

    method IsReadable() returns (readable: bool)
      ensures steady && wire != "" ==> readable
    {
      readable :| steady && wire != "" ==> readable;
    }

    /** Fails with a negative result, reports the end with 0, or takes the first bytes. */
    method Recv(ptr: array<char>, size: nat) returns (n: int)
      requires 0 < size <= ptr.Length
      modifies this, ptr
      ensures n <= size && (n <= 0 ==> wire == old(wire) && ptr[..] == old(ptr[..]))
      ensures n == 0 ==> wire == ""
      ensures n > 0 ==> n <= |old(wire)| && ptr[..n] == old(wire)[..n] && wire == old(wire)[n..]
      ensures steady && old(wire) != "" ==> n > 0
    {
      n := ChooseRead(size);
      if n > 0 {
        for k := 0 to n
          invariant wire == old(wire) && ptr[..k] == wire[..k]
        {
          ptr[k] := wire[k];
        }
        wire := wire[n..];
      }
    }

    method ChooseRead(size: nat) returns (n: int)
      requires size > 0
      ensures n <= size && n <= |wire| && (n == 0 ==> wire == "") && (steady && wire != "" ==> n > 0)
    {
      if wire == "" {
        n :| n <= 0;
      } else if steady {
        assert 1 <= size && 1 <= |wire|;
        n :| 1 <= n <= size && n <= |wire|;
      } else {
        assert -1 <= size && -1 <= |wire| && -1 != 0;
        n :| n != 0 && n <= size && n <= |wire|;
      }
    }
  }

  class SocketStream {
    const sock: Socket
    const buff: array<char>
    var off: nat
    var contentSize: nat

    constructor (sock: Socket)
      ensures Valid() && this.sock == sock && fresh(buff) && Pending() == sock.wire
    {
      this.sock := sock;
      buff := new char[READ_BUFF_SIZE];
      off, contentSize := 0, 0;
    }

    ghost predicate Valid()
      reads this
    {
      buff.Length == READ_BUFF_SIZE && off <= contentSize <= READ_BUFF_SIZE
    }

    /** The bytes that were not handed out yet: those buffered, then those on the wire. */
    ghost function Pending(): string
      requires Valid()
      reads this, buff, sock
    {
      buff[off..contentSize] + sock.wire
    }

    /** The part of a read that the buffer can serve. */
    method ReadBuffered(ptr: array<char>, size: nat) returns (n: nat)
      requires Valid() && 0 < size <= ptr.Length && ptr != buff && off < contentSize
      modifies this`off, ptr
      ensures Valid() && 0 < n <= size && n <= |old(Pending())|
      ensures ptr[..n] == old(Pending())[..n] && Pending() == old(Pending())[n..]
    {
      var remaining := contentSize - off;
      n := if size <= remaining then size else remaining;
      MemCpy(ptr, off, n);
      TakeFront(buff[off..contentSize], sock.wire, n);
      Slices(buff[..], off, n, contentSize);
      off := off + n;
    }

    lemma Slices(b: string, off: nat, n: nat, end: nat)
      requires off + n <= end <= |b|
      ensures b[off..end][n..] == b[off + n..end] && b[off..end][..n] == b[off..off + n]
    {}

    /** A small read from an empty buffer, which is filled first. */
    method ReadThrough(ptr: array<char>, size: nat) returns (n: int)
      requires Valid() && 0 < size <= ptr.Length && ptr != buff && off == contentSize == 0 && size < READ_BUFF_SIZE
      modifies this`off, this`contentSize, buff, sock, ptr
      ensures Valid() && n <= size
      ensures n <= 0 ==> Pending() == old(sock.wire) && ptr[..] == old(ptr[..])
      ensures n == 0 ==> Pending() == ""
      ensures n > 0 ==> n <= |old(sock.wire)| && ptr[..n] == old(sock.wire)[..n] && Pending() == old(sock.wire)[n..]
      ensures sock.steady && old(sock.wire) != "" ==> n > 0
    {
      n := sock.Recv(buff, READ_BUFF_SIZE);
      if n > 0 {
        ghost var got := buff[..n];
        assert old(sock.wire) == got + sock.wire;
        if n <= size {
          MemCpy(ptr, 0, n);
        } else {
          MemCpy(ptr, 0, size);
          TakeFront(got, sock.wire, size);
          off, contentSize, n := size, n, size;
          assert buff[off..contentSize] == got[size..];
        }
      }
    }

    /**
     Hands out the next bytes of the stream, from the buffer if it has any, through the buffer if
     the request is small, directly otherwise.
     */
    method Read(ptr: array<char>, size: nat) returns (n: int)
      requires Valid() && 0 < size <= ptr.Length && ptr != buff
      modifies this, buff, sock, ptr
      ensures Valid() && n <= size
      ensures n <= 0 ==> Pending() == old(Pending()) && ptr[..] == old(ptr[..])
      ensures n == 0 ==> Pending() == ""
      ensures n > 0 ==> n <= |old(Pending())| && ptr[..n] == old(Pending())[..n] && Pending() == old(Pending())[n..]
      ensures sock.steady && old(Pending()) != "" ==> n > 0
    {
      if off < contentSize {
        n := ReadBuffered(ptr, size);
        return;
      }
      assert Pending() == sock.wire;
      var readable := sock.IsReadable();
      if !readable { return -1; }
      off, contentSize := 0, 0;
      if size < READ_BUFF_SIZE {
        n := ReadThrough(ptr, size);
      } else {
        n := sock.Recv(ptr, size);
      }
    }

    lemma TakeFront(a: string, b: string, n: nat)
      requires n <= |a|
      ensures (a + b)[..n] == a[..n] && (a + b)[n..] == a[n..] + b
    {}

    method MemCpy(ptr: array<char>, from: nat, n: nat)
      requires from + n <= buff.Length && n <= ptr.Length && ptr != buff
      modifies ptr
      ensures ptr[..n] == buff[from..from + n]
    {
      for k := 0 to n
        invariant ptr[..k] == buff[from..from + k]
      {
        ptr[k] := buff[from + k];
      }
    }
  }

  /** The first line of a text, through its line feed. */
  function FirstLine(t: string): (line: string)
    requires '\n' in t
    ensures 1 <= |line| <= |t|
  {
    LineFeedAt(t);
    t[..IndexOf(t, '\n') + 1]
  }

  lemma LineFeedAt(t: string)
    requires '\n' in t
    ensures IndexOf(t, '\n') < |t|
  {
    IndexOfFirst(t, '\n');
    assert t[..|t|] == t;
  }

  /** A text that starts with a line has it as its first line. */
  lemma LineEnds(line: string, rest: string)
    requires line != "" && line[|line| - 1] == '\n' && '\n' !in line[..|line| - 1]
    ensures '\n' in line + rest && FirstLine(line + rest) == line
  {
    var before := line[..|line| - 1];
    assert line == before + ['\n'];
    IndexOfIs(before, '\n', rest);
    assert (line + rest)[..|line|] == line;
  }

  /** A text as C sees it, up to the first NUL. */
  function CString(t: string): string {
    t[..IndexOf(t, '\0')]
  }

  class StreamLineReader {
    const strm: SocketStream
    const fixedBuffer: array<char>
    var used: nat
    var growable: string

    constructor (strm: SocketStream, fixedBuffer: array<char>)
      requires fixedBuffer.Length >= 2 && fixedBuffer != strm.buff
      ensures Valid() && this.strm == strm && this.fixedBuffer == fixedBuffer
    {
      this.strm := strm;
      this.fixedBuffer := fixedBuffer;
      used, growable := 0, "";
    }

    ghost predicate Valid()
      reads this, fixedBuffer
    {
      && fixedBuffer.Length >= 2 && used < fixedBuffer.Length && fixedBuffer != strm.buff
      && (used > 0 ==> fixedBuffer[used] == '\0')
      && (growable != "" ==> used == fixedBuffer.Length - 1 && fixedBuffer[..used] <= growable)
    }

    /** The line as it stands, in whichever buffer holds it. */
    function Contents(): string
      requires used <= fixedBuffer.Length
      reads this, fixedBuffer
    {
      if growable == "" then fixedBuffer[..used] else growable
    }

    method Append(c: char)
      requires Valid()
      modifies this`used, this`growable, fixedBuffer
      ensures Valid() && Contents() == old(Contents()) + [c]
    {
      if used < fixedBuffer.Length - 1 {
        fixedBuffer[used] := c;
        used := used + 1;
        fixedBuffer[used] := '\0';
      } else {
        if growable == "" {
          assert fixedBuffer[used] == '\0';
          growable := fixedBuffer[..used];
        }
        growable := growable + [c];
      }
    }

    /**
     Reads through the next line feed, or to the end of the stream. On failure what was read is lost
     to later calls; in every case nothing past the line is consumed.
     */
    method GetLine() returns (ok: bool)
      requires Valid() && strm.Valid()
      modifies this`used, this`growable, fixedBuffer, strm, strm.buff, strm.sock
      ensures Valid() && strm.Valid()
      ensures old(strm.Pending()) == Contents() + strm.Pending()
      ensures ok && '\n' in old(strm.Pending()) ==> Contents() == FirstLine(old(strm.Pending()))
      ensures ok && '\n' !in old(strm.Pending()) ==> strm.Pending() == "" && Contents() != ""
      ensures strm.sock.steady && '\n' in old(strm.Pending()) ==> ok
    {
      used, growable := 0, "";
      ghost var all := strm.Pending();
      var i := 0;
      var byte := new char[1];
      assert Contents() == "" && "" + all == all;
      while true
        invariant Valid() && strm.Valid() && byte.Length == 1 && fresh(byte)
        invariant all == Contents() + strm.Pending() && '\n' !in Contents() && i == |Contents()|
        decreases |strm.Pending()|
      {
        ghost var rest := strm.Pending();
        var n := strm.Read(byte, 1);
        if n < 0 {
          assert '\n' in all ==> rest != "";
          return false;
        } else if n == 0 {
          return i != 0;
        }
        AppendFirst(Contents(), rest);
        assert byte[0] == byte[..1][0] == rest[0];
        Append(byte[0]);
        i := i + 1;
        if byte[0] == '\n' {
          LineEnds(Contents(), strm.Pending());
          return true;
        }
      }
    }

    lemma AppendFirst(a: string, b: string)
      requires b != ""
      ensures a + b == a + [b[0]] + b[1..]
    {}
  }
}
