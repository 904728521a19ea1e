/**
 The conversions as loops over character buffers and the array of groups, in place. A text has no
 NUL inside; reading at its end gives the NUL that terminates it.
 */
module InetBuffers {
  import opened Numerals
  import opened Inet
  import opened InetParse
  import opened InetPrint
  import opened InetText
  import opened Text

  function At(s: string, i: nat): char
    requires i <= |s|
  {
    if i < |s| then s[i] else NUL
  }

  // ---- The text fits the buffer

  lemma HexClean(n: nat)
    requires n < 0x10000
    ensures NUL !in Hex(n) && |Hex(n)| <= 4
  {
    HexIsGroup(n);
    assert forall i :: 0 <= i < |Hex(n)| ==> HexVal(Hex(n)[i]) >= 0;
  }

  lemma {:induction false} PrintedClean(numbers: seq<nat>)
    requires Words(numbers)
    ensures NUL !in Printed(numbers) && |Printed(numbers)| <= 5 * |numbers|
  {
    if |numbers| == 1 {
      assert numbers == [numbers[0]];
      HexClean(numbers[0]);
    } else if |numbers| > 1 {
      HexClean(numbers[0]);
      PrintedMore(numbers);
      PrintedClean(numbers[1..]);
    }
  }

  lemma {:induction false} DottedClean(octets: seq<nat>)
    requires forall i :: 0 <= i < |octets| ==> octets[i] < 256
    ensures NUL !in DottedText(octets) && |DottedText(octets)| <= 4 * |octets|
  {
    if octets != [] {
      DecIsOctet(octets[0]);
      assert NUL !in Dec(octets[0]);
      if |octets| > 1 { DottedClean(octets[1..]); }
    }
  }

  lemma PlainClean(a: seq<nat>)
    requires Octets16(a)
    ensures NUL !in Plain6(a) && |Plain6(a)| < 100
  {
    if Mapped(a) {
      PrintedClean(GroupsOf(a[..12]));
      DottedClean(a[12..]);
    } else {
      PrintedClean(GroupsOf(a));
    }
  }

  // ---- Printing

  /** `strspn(buf + i, ":0")`, for a buffer that holds the text. */
  method StrSpn(buf: array<char>, i: nat, ghost t: string) returns (j: nat)
    requires |t| < buf.Length && buf[..|t|] == t && buf[|t|] == NUL && i <= |t|
    ensures j == Span(t[i..])
  {
    j := 0;
    while InRun(buf[i + j])
      invariant i + j <= |t| && j + Span(t[i + j..]) == Span(t[i..])
      decreases |t| - (i + j)
    {
      assert buf[i + j] == buf[..|t|][i + j] == t[i + j..][0];
      assert t[i + j..][1..] == t[i + j + 1..];
      j := j + 1;
    }
    assert i + j < |t| ==> buf[i + j] == buf[..|t|][i + j] == t[i + j..][0];
  }

  method FindBest(buf: array<char>, ghost t: string) returns (best: nat, max: nat, i: nat)
    requires |t| < buf.Length && buf[..|t|] == t && buf[|t|] == NUL && NUL !in t
    ensures (best, max) == BestFrom(t, 0, 0, 2) && i == |t|
  {
    i, best, max := 0, 0, 2;
    assert forall k :: 0 <= k < |t| ==> buf[k] == buf[..|t|][k] == t[k];
    while buf[i] != NUL
      invariant i <= |t| && (best + max <= |t| || max == 2)
      invariant BestFrom(t, i, best, max) == BestFrom(t, 0, 0, 2)
      decreases |t| - i
    {
      if !(i > 0 && buf[i] != ':') {
        var j := StrSpn(buf, i, t);
        if j > max {
          best, max := i, j;
        }
      }
      i := i + 1;
    }
  }

  /** Moves the end of the text, with its NUL, to a lower place in the same buffer. */
  method MoveDown(buf: array<char>, to: nat, from: nat, count: nat)
    requires to <= from && from + count <= buf.Length
    modifies buf
    ensures buf[to..to + count] == old(buf[from..from + count])
    ensures forall k :: 0 <= k < to ==> buf[k] == old(buf[k])
  {
    ghost var was := buf[..];
    for k := 0 to count
      invariant forall x :: to <= x < to + k ==> buf[x] == was[x - to + from]
      invariant forall x :: from + k <= x < from + count ==> buf[x] == was[x]
      invariant forall x :: 0 <= x < to ==> buf[x] == was[x]
    {
      buf[to + k] := buf[from + k];
    }
  }

  method StrLen(buf: array<char>, ghost t: string) returns (n: nat)
    requires |t| < buf.Length && buf[..|t|] == t && buf[|t|] == NUL && NUL !in t
    ensures n == |t|
  {
    n := 0;
    assert forall k :: 0 <= k < |t| ==> buf[k] == buf[..|t|][k] == t[k];
    while buf[n] != NUL
      invariant n <= |t|
      decreases |t| - n
    {
      n := n + 1;
    }
  }

  /** The best run of the buffer becomes two colons. */
  method CompressBuffer(buf: array<char>, ghost t: string)
    requires |t| < buf.Length && buf[..|t|] == t && buf[|t|] == NUL && NUL !in t
    modifies buf
    ensures |Compress(t)| <= |t| && buf[..|Compress(t)|] == Compress(t) && buf[|Compress(t)|] == NUL
    ensures NUL !in Compress(t)
  {
    var best, max, i := FindBest(buf, t);
    if max > 3 {
      PutColons(buf, best, max, i, t);
      Compressed(buf[..], t, best, max);
    }
  }

  /** Two colons at `best`, and what follows the run right behind them. */
  method PutColons(buf: array<char>, best: nat, max: nat, i: nat, ghost t: string)
    requires best + max <= i == |t| < buf.Length && max > 3 && buf[..i] == t && buf[i] == NUL
    modifies buf
    ensures buf[..best] == t[..best] && buf[best] == ':' && buf[best + 1] == ':'
    ensures buf[best + 2..i - max + 3] == t[best + max..] + [NUL]
  {
    buf[best], buf[best + 1] := ':', ':';
    assert buf[best + max..i + 1] == t[best + max..] + [NUL];
    MoveDown(buf, best + 2, best + max, i - best - max + 1);
  }

  lemma Compressed(b: string, t: string, best: nat, max: nat)
    requires best + max <= |t| < |b| && max > 3 && (best, max) == BestFrom(t, 0, 0, 2) && NUL !in t
    requires b[..best] == t[..best] && b[best] == ':' && b[best + 1] == ':'
    requires b[best + 2..|t| - max + 3] == t[best + max..] + [NUL]
    ensures var c := Compress(t); |c| == |t| - max + 2 && b[..|c|] == c && b[|c|] == NUL && NUL !in c
  {
    var c := Compress(t);
    var tail := t[best + max..];
    assert b[|c|] == b[best + 2..|t| - max + 3][|tail|];
    assert b[best + 2..|c|] == (tail + [NUL])[..|tail|] == tail;
    assert b[..|c|] == b[..best] + (b[best..best + 2] + b[best + 2..|c|]);
  }

  /** `inet_ntop` for IPv6, with `l` characters of space. */
  method InetNtop6(a: seq<nat>, l: nat) returns (s: Option<string>)
    requires Octets16(a)
    ensures s == if |Print6(a)| < l then Some(Print6(a)) else None
  {
    var text := Plain6(a);
    PlainClean(a);
    var buf := new char[100];
    for i := 0 to |text|
      invariant buf[..i] == text[..i]
    {
      buf[i] := text[i];
    }
    buf[|text|] := NUL;
    assert buf[..|text|] == text;
    CompressBuffer(buf, text);
    var n := StrLen(buf, Compress(text));
    s := if n < l then Some(buf[..n]) else None;
  }

  /** `inet_ntop` for IPv4. */
  method InetNtop4(a: seq<nat>, l: nat) returns (s: Option<string>)
    requires Octets4(a)
    ensures s == if |DottedText(a)| < l then Some(DottedText(a)) else None
  {
    var text := Dec(a[0]) + "." + Dec(a[1]) + "." + Dec(a[2]) + "." + Dec(a[3]);
    FourOctets(a);
    s := if |text| < l then Some(text) else None;
  }

  lemma FourOctets(a: seq<nat>)
    requires Octets4(a)
    ensures Dec(a[0]) + "." + Dec(a[1]) + "." + Dec(a[2]) + "." + Dec(a[3]) == DottedText(a)
  {
    var (x, y, z, w) := (Dec(a[0]), Dec(a[1]), Dec(a[2]), Dec(a[3]));
    assert a[3..] == [a[3]] && DottedText(a[3..]) == w;
    assert a[2..][1..] == a[3..] && DottedText(a[2..]) == z + ("." + w);
    assert a[1..][1..] == a[2..] && DottedText(a[1..]) == y + ("." + (z + ("." + w)));
    assert x + "." + y + "." + z + "." + w == x + ("." + (y + ("." + (z + ("." + w)))));
  }

  // ---- Parsing

  lemma AtRest(s: string, i: nat)
    requires i <= |s| && NUL !in s
    ensures At(s, i) == NUL <==> s[i..] == ""
    ensures i < |s| ==> s[i..] != "" && s[i..][0] == At(s, i) && s[i..][1..] == s[i + 1..]
  {}

  /** One turn of the loop over octets, when `j` digits have been read. */
  lemma OctetTurn(s: string, p: nat, done: seq<int>, j: nat, v: int)
    requires p <= |s| && NUL !in s && |done| < 4
    requires j == Octets(s[p..]) && v == DecRun(s[p..], 0, 0).1 && p + j <= |s|
    ensures At(s, p + j) == '.' ==> p + j < |s|
    ensures (Scan4(s[p..], done)
             == if j == 0 || (j > 1 && At(s, p) == '0') || v > 255 then (false, done)
                else if At(s, p + j) == NUL && |done| == 3 then (true, done + [v])
                else if At(s, p + j) != '.' || |done| == 3 then (false, done + [v])
                else Scan4(s[p + j + 1..], done + [v]))
  {
    AtRest(s, p);
    AtRest(s, p + j);
    assert s[p..][j..] == s[p + j..];
    if p + j < |s| { assert s[p..][j + 1..] == s[p + j + 1..]; }
  }

  /** One turn of the loop over octets: the octet, and whether the text ends or goes on behind it. */
  method OctetStep(s: string, p: nat, i: nat, ghost done: seq<int>, ghost whole: (bool, seq<int>))
    returns (read: bool, turn: Turn, v: int, next: nat)
    requires p <= |s| && NUL !in s && i == |done| < 4 && Scan4(s[p..], done) == whole
    ensures next <= |s| && (!read ==> turn == Refuse)
    ensures turn == Refuse ==> !whole.0
    ensures turn == Stop ==> i == 3 && whole == (true, done + [v])
    ensures turn == GoOn ==> if i == 3 then !whole.0 else whole == Scan4(s[next..], done + [v])
  {
    var j;
    j, v := ReadOctet(s, p);
    OctetTurn(s, p, done, j, v);
    turn, next := Refuse, p;
    read := !(j == 0 || (j > 1 && At(s, p) == '0') || v > 255);
    if !read { return; }
    if At(s, p + j) == NUL && i == 3 { return true, Stop, v, p; }
    if At(s, p + j) != '.' { return; }
    turn, next := GoOn, p + j + 1;
  }

  /** `inet_pton` for IPv4, on the text from `from` on, into four bytes of the array. */
  method InetPton4(s: string, from: nat, a: array<int>, off: nat) returns (ok: bool)
    requires from <= |s| && NUL !in s && off + 4 <= a.Length
    modifies a
    ensures ok == Scan4(s[from..], []).0
    ensures ok ==> a[off..off + 4] == Scan4(s[from..], []).1
    ensures a[..off] == old(a[..off])
  {
    var p: nat := from;
    ghost var done, whole := [], Scan4(s[from..], []);
    for i := 0 to 4
      invariant p <= |s| && a[..off] == old(a[..off]) && done == a[off..off + i]
      invariant if i < 4 then Scan4(s[p..], done) == whole else !whole.0
    {
      var read, turn, v, next := OctetStep(s, p, i, done, whole);
      if !read { return false; }
      a[off + i] := v;
      done := done + [v];
      if turn == Stop { return true; }
      if turn == Refuse { return false; }
      p := next;
    }
    ok := false;
  }

  method ReadOctet(s: string, p: nat) returns (j: nat, v: int)
    requires p <= |s| && NUL !in s
    ensures j == Octets(s[p..]) && v == DecRun(s[p..], 0, 0).1 && p + j <= |s|
  {
    j, v := 0, 0;
    while j < 3 && IsDigit(At(s, p + j))
      invariant j <= 3 && p + j <= |s| && DecRun(s[p + j..], j, v) == DecRun(s[p..], 0, 0)
    {
      AtRest(s, p + j);
      v := 10 * v + HexVal(At(s, p + j));
      j := j + 1;
    }
    AtRest(s, p + j);
  }

  method ReadGroup(s: string, p: nat) returns (j: nat, v: int)
    requires p <= |s| && NUL !in s
    ensures j == Count(s[p..]) && v == HexRun(s[p..], 0, 0).1 && p + j <= |s|
  {
    j, v := 0, 0;
    while j < 4 && HexVal(At(s, p + j)) >= 0
      invariant j <= 4 && p + j <= |s| && HexRun(s[p + j..], j, v) == HexRun(s[p..], 0, 0)
    {
      AtRest(s, p + j);
      v := 16 * v + HexVal(At(s, p + j));
      j := j + 1;
    }
    AtRest(s, p + j);
  }

  /** The first branch of the loop over groups, at a position of the text. */
  lemma ColonTurn(s: string, p: nat, i: nat, brk: int, ip: seq<int>)
    requires p <= |s| && NUL !in s && i < 8 && |ip| == 8 && -1 <= brk < i
    requires At(s, p) == ':' && brk < 0
    ensures p < |s|
    ensures (Scan(s[p..], i, brk, ip)
             == if At(s, p + 1) == NUL then Done(i, i, ip[i := 0], NoTail)
                else if i == 7 then Fail
                else Scan(s[p + 1..], i + 1, i, ip[i := 0]))
  {
    AtRest(s, p);
    AtRest(s, p + 1);
  }

  /** The second one, when a group of `j` digits has been read. */
  lemma GroupTurn(s: string, p: nat, i: nat, brk: int, ip: seq<int>, j: nat, v: int)
    requires p <= |s| && NUL !in s && i < 8 && |ip| == 8 && -1 <= brk < i
    requires !(At(s, p) == ':' && brk < 0)
    requires j == Count(s[p..]) && v == HexRun(s[p..], 0, 0).1 && p + j <= |s|
    ensures (Scan(s[p..], i, brk, ip)
             == if j == 0 then Fail
                else if At(s, p + j) == NUL && (brk >= 0 || i == 7) then Done(i, brk, ip[i := v], NoTail)
                else if i == 7 || At(s, p + j) == NUL then Fail
                else if At(s, p + j) == ':' then Scan(s[p + j + 1..], i + 1, brk, ip[i := v])
                else if At(s, p + j) != '.' || (i < 6 && brk < 0) then Fail
                else Done(i + 1, brk, ip[i := v], TailAt(s[p..])))
  {
    AtRest(s, p);
    AtRest(s, p + j);
    assert s[p..][j..] == s[p + j..];
    if p + j < |s| { assert s[p..][j + 1..] == s[p + j + 1..]; }
  }

  /** What the loop over groups does after a turn. */
  datatype Turn = Refuse | Stop | GoOn

  method ColonStep(s: string, p: nat, i: nat, ip: array<int>, ghost whole: Scanned) returns (turn: Turn)
    requires p <= |s| && NUL !in s && i < 8 && ip.Length == 8 && At(s, p) == ':'
    requires Scan(s[p..], i, -1, ip[..]) == whole
    modifies ip
    ensures p < |s|
    ensures turn == Refuse ==> whole == Fail
    ensures turn == Stop ==> whole == Done(i, i, ip[..], NoTail)
    ensures turn == GoOn ==> i < 7 && whole == Scan(s[p + 1..], i + 1, i, ip[..])
  {
    ColonTurn(s, p, i, -1, ip[..]);
    ghost var groups := ip[..][i := 0];
    ip[i] := 0;
    assert ip[..] == groups;
    turn := if At(s, p + 1) == NUL then Stop else if i == 7 then Refuse else GoOn;
  }

  method GroupStep(s: string, p: nat, i: nat, brk: int, ip: array<int>, ghost whole: Scanned)
    returns (turn: Turn, needV4: bool, next: nat)
    requires p <= |s| && NUL !in s && i < 8 && ip.Length == 8 && -1 <= brk < i && !(At(s, p) == ':' && brk < 0)
    requires Scan(s[p..], i, brk, ip[..]) == whole
    modifies ip
    ensures p <= next <= |s| && (needV4 ==> turn == Stop && i < 7)
    ensures turn == Refuse ==> whole == Fail
    ensures turn == Stop ==> next == p
    ensures turn == Stop ==>
      whole == if needV4 then Done(i + 1, brk, ip[..], TailAt(s[p..])) else Done(i, brk, ip[..], NoTail)
    ensures turn == GoOn ==> i < 7 && whole == Scan(s[next..], i + 1, brk, ip[..])
  {
    ghost var groups := ip[..];
    var j, v := ReadGroup(s, p);
    if j > 0 {
      ip[i] := v;
    }
    assert j > 0 ==> ip[..] == groups[i := v];
    turn, needV4, next := AfterGroup(s, p, i, brk, j, groups, v, whole);
  }

  /** What follows the digits of a group decides how the loop goes on. */
  method AfterGroup(s: string, p: nat, i: nat, brk: int, j: nat, ghost ip: seq<int>, ghost v: int, ghost whole: Scanned)
    returns (turn: Turn, needV4: bool, next: nat)
    requires p <= |s| && NUL !in s && i < 8 && |ip| == 8 && -1 <= brk < i && !(At(s, p) == ':' && brk < 0)
    requires j == Count(s[p..]) && v == HexRun(s[p..], 0, 0).1 && p + j <= |s|
    requires Scan(s[p..], i, brk, ip) == whole
    ensures p <= next <= |s| && (needV4 ==> turn == Stop && i < 7)
    ensures turn != Refuse ==> j > 0
    ensures turn == Refuse ==> whole == Fail
    ensures turn == Stop ==> next == p
    ensures turn == Stop ==>
      whole == if needV4 then Done(i + 1, brk, ip[i := v], TailAt(s[p..])) else Done(i, brk, ip[i := v], NoTail)
    ensures turn == GoOn ==> i < 7 && whole == Scan(s[next..], i + 1, brk, ip[i := v])
  {
    turn, needV4, next := Refuse, false, p;
    GroupTurn(s, p, i, brk, ip, j, v);
    if j == 0 { return; }
    if At(s, p + j) == NUL && (brk >= 0 || i == 7) { return Stop, false, p; }
    if i == 7 { return; }
    if At(s, p + j) != ':' {
      if At(s, p + j) != '.' || (i < 6 && brk < 0) { return; }
      return Stop, true, p;
    }
    turn, next := GoOn, p + j + 1;
  }

  /** The loop over groups. Where it ends in success, `p` is where a dotted tail starts. */
  method ReadGroups(s: string, from: nat, ip: array<int>)
    returns (ok: bool, i: nat, brk: int, needV4: bool, p: nat)
    requires from <= |s| && NUL !in s && ip.Length == 8
    modifies ip
    ensures ok == Scan(s[from..], 0, -1, old(ip[..])).Done?
    ensures ok ==> p <= |s| && i < 8 && -1 <= brk <= i
    ensures (ok ==> Scan(s[from..], 0, -1, old(ip[..]))
                    == Done(i, brk, ip[..], if needV4 then TailAt(s[p..]) else NoTail))
  {
    i, brk, needV4, p, ok := 0, -1, false, from, false;
    ghost var whole := Scan(s[from..], 0, -1, old(ip[..]));
    var turn := GoOn;
    while turn == GoOn
      invariant i < 8 && p <= |s| && -1 <= brk <= i
      invariant turn == GoOn ==> brk < i && !needV4 && Scan(s[p..], i, brk, ip[..]) == whole
      invariant turn == Stop ==> whole == Done(i, brk, ip[..], if needV4 then TailAt(s[p..]) else NoTail)
      invariant turn == Refuse ==> whole == Fail
      decreases 8 - i, turn == GoOn
    {
      if At(s, p) == ':' && brk < 0 {
        turn := ColonStep(s, p, i, ip, whole);
        brk := i;
        p := p + 1;
        if turn == GoOn { i := i + 1; }
      } else {
        var next;
        turn, needV4, next := GroupStep(s, p, i, brk, ip, whole);
        p := next;
        if turn == GoOn || needV4 { i := i + 1; }
      }
    }
    ok := turn == Stop;
  }

  /** `memmove` of the groups from `brk` to `i` to the end of the array, where they overlap. */
  method MoveToEnd(ip: array<int>, i: nat, brk: nat)
    requires ip.Length == 8 && brk <= i < 8
    modifies ip
    ensures forall x :: 0 <= x < brk ==> ip[x] == old(ip[x])
    ensures forall x :: brk + 7 - i <= x < 8 ==> ip[x] == old(ip[x - (7 - i)])
  {
    for k := i + 1 downto brk
      invariant forall x :: 0 <= x < k ==> ip[x] == old(ip[x])
      invariant forall x :: k + 7 - i <= x < 8 ==> ip[x] == old(ip[x - (7 - i)])
    {
      ip[k + 7 - i] := ip[k];
    }
  }

  method ZeroGap(ip: array<int>, brk: nat, count: nat)
    requires brk + count <= ip.Length
    modifies ip
    ensures forall x :: brk <= x < brk + count ==> ip[x] == 0
    ensures forall x :: 0 <= x < brk || brk + count <= x < ip.Length ==> ip[x] == old(ip[x])
  {
    for j := 0 to count
      invariant forall x :: brk <= x < brk + j ==> ip[x] == 0
      invariant forall x :: 0 <= x < brk || brk + j <= x < ip.Length ==> ip[x] == old(ip[x])
    {
      ip[brk + j] := 0;
    }
  }

  lemma ExpandedIs(was: seq<int>, now: seq<int>, i: nat, brk: nat)
    requires |was| == |now| == 8 && brk <= i < 8
    requires forall x :: 0 <= x < brk ==> now[x] == was[x]
    requires forall x :: brk <= x < brk + 7 - i ==> now[x] == 0
    requires forall x :: brk + 7 - i <= x < 8 ==> now[x] == was[x - (7 - i)]
    ensures now == Expand(i, brk, was)
  {
    assert now == now[..brk] + now[brk..brk + 7 - i] + now[brk + 7 - i..];
    assert now[brk..brk + 7 - i] == seq(7 - i, _ => 0);
    assert now[brk + 7 - i..] == was[brk..i + 1];
  }

  /** The groups from `brk` to `i` move to the end, downwards so that none is lost, and zeros fill the gap. */
  method ExpandInPlace(ip: array<int>, i: nat, brk: nat)
    requires ip.Length == 8 && brk <= i < 8
    modifies ip
    ensures ip[..] == Expand(i, brk, old(ip[..]))
  {
    MoveToEnd(ip, i, brk);
    ZeroGap(ip, brk, 7 - i);
    ExpandedIs(old(ip[..]), ip[..], i, brk);
  }

  method StoreBytes(ip: array<int>, a: array<int>)
    requires ip.Length == 8 && a.Length == 16 && ip != a
    modifies a
    ensures a[..] == Bytes(ip[..])
  {
    for j := 0 to 8
      invariant a[..2 * j] == Bytes(ip[..j])
    {
      BytesAppend(ip[..j], [ip[j]]);
      assert ip[..j + 1] == ip[..j] + [ip[j]];
      a[2 * j], a[2 * j + 1] := ip[j] / 256 % 256, ip[j] % 256;
      assert a[..2 * (j + 1)] == a[..2 * j] + [a[2 * j], a[2 * j + 1]];
    }
    assert ip[..8] == ip[..] && a[..16] == a[..];
  }

  /** What follows the loop: expansion, storing, and the dotted tail. */
  method StoreAddress(s: string, ip: array<int>, i: nat, brk: int, needV4: bool, p: nat, a: array<int>)
    returns (ok: bool)
    requires NUL !in s && ip.Length == 8 && a.Length == 16 && ip != a && p <= |s| && i < 8 && -1 <= brk <= i
    modifies ip, a
    ensures var r := Finish(Done(i, brk, old(ip[..]), if needV4 then TailAt(s[p..]) else NoTail));
      ok == r.0 && (ok ==> a[..] == r.1)
  {
    if brk >= 0 {
      ExpandInPlace(ip, i, brk);
    }
    StoreBytes(ip, a);
    ok := true;
    if needV4 {
      ghost var stored := a[..];
      ok := InetPton4(s, p, a, 12);
      assert a[..12] == stored[..12];
      assert ok ==> a[..] == a[..12] + a[12..16];
    }
  }

  /** `inet_pton` for IPv6. The array of groups is not initialised. */
  method InetPton6(s: string, a: array<int>) returns (ok: bool)
    requires NUL !in s && a.Length == 16
    modifies a
    ensures ok == Parse6(s, Zeros(8)).0
    ensures ok ==> a[..] == Parse6(s, Zeros(8)).1
  {
    var ip := new int[8];
    ghost var garbage := ip[..];
    GarbageStaysInside(s, garbage, Zeros(8));
    var from := 0;
    AtRest(s, 0);
    assert s[0..] == s;
    if At(s, 0) == ':' {
      from := 1;
      AtRest(s, 1);
      if At(s, 1) != ':' { return false; }
    }
    FromStart(s, from, garbage);
    var read, i, brk, needV4, p := ReadGroups(s, from, ip);
    if !read { return false; }
    ok := StoreAddress(s, ip, i, brk, needV4, p, a);
  }

  lemma FromStart(s: string, from: nat, ip: seq<int>)
    requires |ip| == 8
    requires if s == "" || s[0] != ':' then from == 0 else from == 1 < |s| && s[1] == ':'
    ensures Parse6(s, ip) == Finish(Scan(s[from..], 0, -1, ip))
  {
    assert s[0..] == s;
  }

  /** Printing into a buffer that is large enough and parsing gives the address back. */
  method PrintAndParse(a: seq<nat>, l: nat) returns (back: Option<seq<int>>)
    requires Octets16(a)
    ensures back == if |Print6(a)| < l then Some(a) else None
  {
    var s := InetNtop6(a, l);
    if s == None { return None; }
    var bytes := new int[16];
    RoundTrip6(a, Zeros(8));
    PrintClean(a);
    var ok := InetPton6(s.value, bytes);
    back := Some(bytes[..]);
  }

  lemma PrintClean(a: seq<nat>)
    requires Octets16(a)
    ensures NUL !in Print6(a)
  {
    PlainClean(a);
  }
}

