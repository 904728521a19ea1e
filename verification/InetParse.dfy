/**
 The address parser, as a function of the text that is left to read. A C string has no NUL
 inside, so the end of the text stands for the terminating NUL.
 */
module InetParse {
  import opened Numerals
  import opened InetText
  import opened Text

  /** Digits of a group: at most four, from what is left of the text. */
  function HexRun(t: string, j: nat, v: int): (int, int)
    requires j <= 4
    decreases 4 - j
  {
    if j < 4 && t != "" && HexVal(t[0]) >= 0 then HexRun(t[1..], j + 1, 16 * v + HexVal(t[0])) else (j, v)
  }

  /** Digits of an octet: at most three. */
  function DecRun(t: string, j: nat, v: int): (int, int)
    requires j <= 3
    decreases 3 - j
  {
    if j < 3 && t != "" && IsDigit(t[0]) then DecRun(t[1..], j + 1, 10 * v + HexVal(t[0])) else (j, v)
  }

  lemma {:induction false} HexRunBound(t: string, j: nat, v: int)
    requires j <= 4
    ensures var (k, _) := HexRun(t, j, v); j <= k <= 4 && k - j <= |t|
    decreases 4 - j
  {
    if j < 4 && t != "" && HexVal(t[0]) >= 0 {
      HexRunBound(t[1..], j + 1, 16 * v + HexVal(t[0]));
    }
  }

  lemma {:induction false} DecRunBound(t: string, j: nat, v: int)
    requires j <= 3
    ensures var (k, _) := DecRun(t, j, v); j <= k <= 3 && k - j <= |t|
    decreases 3 - j
  {
    if j < 3 && t != "" && IsDigit(t[0]) {
      DecRunBound(t[1..], j + 1, 10 * v + HexVal(t[0]));
    }
  }

  function Count(t: string): (j: int)
    ensures 0 <= j <= 4 && j <= |t|
  {
    HexRunBound(t, 0, 0);
    HexRun(t, 0, 0).0
  }

  function Octets(t: string): (j: int)
    ensures 0 <= j <= 3 && j <= |t|
  {
    DecRunBound(t, 0, 0);
    DecRun(t, 0, 0).0
  }

  // ---- IPv4

  /** The loop over four octets; `a` holds those read. */
  function Scan4(t: string, a: seq<int>): (bool, seq<int>)
    requires |a| < 4
    decreases 4 - |a|
  {
    var j := Octets(t);
    var v := DecRun(t, 0, 0).1;
    if j == 0 || (j > 1 && t[0] == '0') || v > 255 then (false, a)
    else if j == |t| && |a| == 3 then (true, a + [v])
    else if j == |t| || t[j] != '.' || |a| == 3 then (false, a + [v])
    else Scan4(t[j + 1..], a + [v])
  }

  // ---- IPv6

  /** How the loop over groups ends. `v4` is where a dotted tail starts. */
  datatype Scanned =
    | Fail
    | Done(i: nat, brk: int, ip: seq<int>, v4: Dotted)

  datatype Dotted = NoTail | TailAt(text: string)

  /** The loop over groups, at group `i`; `brk` is where `::` was met, or -1. */
  function Scan(t: string, i: nat, brk: int, ip: seq<int>): (r: Scanned)
    requires i < 8 && |ip| == 8 && -1 <= brk < i
    ensures r.Done? ==> |r.ip| == 8 && i <= r.i < 8 && -1 <= r.brk <= r.i
    decreases 8 - i
  {
    if t != "" && t[0] == ':' && brk < 0 then
      if |t| == 1 then Done(i, i, ip[i := 0], NoTail)
      else if i == 7 then Fail
      else Scan(t[1..], i + 1, i, ip[i := 0])
    else
      var j := Count(t);
      var set' := ip[i := HexRun(t, 0, 0).1];
      if j == 0 then Fail
      else if j == |t| && (brk >= 0 || i == 7) then Done(i, brk, set', NoTail)
      else if i == 7 || j == |t| then Fail
      else if t[j] == ':' then Scan(t[j + 1..], i + 1, brk, set')
      else if t[j] != '.' || (i < 6 && brk < 0) then Fail
      else Done(i + 1, brk, set', TailAt(t))
  }

  /** The groups after `::` move to the end, zeros take their place. */
  function Expand(i: nat, brk: int, ip: seq<int>): (r: seq<int>)
    requires |ip| == 8 && i < 8 && -1 <= brk <= i
    ensures |r| == 8
  {
    if brk < 0 then ip else ip[..brk] + seq(7 - i, _ => 0) + ip[brk..i + 1]
  }

  /** Sixteen-bit groups as pairs of bytes. */
  function Bytes(ip: seq<int>): (a: seq<int>)
    ensures |a| == 2 * |ip|
  {
    if ip == [] then [] else [ip[0] / 256 % 256, ip[0] % 256] + Bytes(ip[1..])
  }

  /** What the loop leaves, as bytes; a dotted tail takes the last four. */
  function Finish(r: Scanned): (bool, seq<int>)
    requires r.Done? ==> |r.ip| == 8 && r.i < 8 && -1 <= r.brk <= r.i
  {
    if r.Fail? then (false, [])
    else if r.v4.NoTail? then (true, Bytes(Expand(r.i, r.brk, r.ip)))
    else WithTail(Bytes(Expand(r.i, r.brk, r.ip)), Scan4(r.v4.text, []))
  }

  function WithTail(a: seq<int>, tail: (bool, seq<int>)): (bool, seq<int>)
    requires |a| == 16
  {
    if tail.0 then (true, a[..12] + tail.1) else (false, [])
  }

  /** The whole conversion; `ip` is what the array of groups happens to hold before. */
  function Parse6(s: string, ip: seq<int>): (bool, seq<int>)
    requires |ip| == 8
  {
    if s == "" || s[0] != ':' then Finish(Scan(s, 0, -1, ip))
    else if |s| == 1 || s[1] != ':' then (false, [])
    else Finish(Scan(s[1..], 0, -1, ip))
  }

  // ---- Sixteen bits

  /** More than what `j` hexadecimal digits can denote. */
  function Sixteens(j: nat): nat {
    if j == 0 then 1 else if j == 1 then 0x10 else if j == 2 then 0x100 else if j == 3 then 0x1000 else 0x10000
  }

  lemma {:induction false} HexRunFits(t: string, j: nat, v: int)
    requires j <= 4 && 0 <= v < Sixteens(j)
    ensures var (k, w) := HexRun(t, j, v); j <= k <= 4 && 0 <= w < Sixteens(k) <= 0x10000
    decreases 4 - j
  {
    if j < 4 && t != "" && HexVal(t[0]) >= 0 {
      assert HexVal(t[0]) < 16;
      HexRunFits(t[1..], j + 1, 16 * v + HexVal(t[0]));
    }
  }

  predicate SixteenBits(ip: seq<int>) {
    forall k :: 0 <= k < |ip| ==> 0 <= ip[k] < 0x10000
  }

  /** Whatever the text, what the loop stores needs no more than the sixteen bits of `uint16_t`. */
  lemma {:induction false} ScanFits(t: string, i: nat, brk: int, ip: seq<int>)
    requires i < 8 && |ip| == 8 && -1 <= brk < i && SixteenBits(ip)
    ensures Scan(t, i, brk, ip).Done? ==> SixteenBits(Scan(t, i, brk, ip).ip)
    decreases 8 - i
  {
    if t != "" && t[0] == ':' && brk < 0 {
      if |t| > 1 && i < 7 { ScanFits(t[1..], i + 1, i, ip[i := 0]); }
    } else {
      var j := Count(t);
      HexRunFits(t, 0, 0);
      if 0 < j < |t| && i < 7 && t[j] == ':' {
        ScanFits(t[j + 1..], i + 1, brk, ip[i := HexRun(t, 0, 0).1]);
      }
    }
  }

  // ---- What the loops read

  lemma FirstMoves(a: string, b: string, rest: string)
    requires b != ""
    ensures a + b == a + [b[0]] + b[1..] && (a + b)[|a|] == b[0]
    ensures b + rest == [b[0]] + (b[1..] + rest) && (b + rest)[1..] == b[1..] + rest
  {}

  lemma {:induction false} HexReadsFrom(a: string, b: string, rest: string)
    requires HexText(a + b) && |a + b| <= 4
    requires |a + b| == 4 || rest == "" || HexVal(rest[0]) < 0
    ensures HexRun(b + rest, |a|, Value(a, 16)) == (|a + b|, Value(a + b, 16))
    decreases |b|
  {
    if b == "" {
      assert a + b == a && b + rest == rest;
    } else {
      ValueMore(a, b[0], 16);
      FirstMoves(a, b, rest);
      HexReadsFrom(a + [b[0]], b[1..], rest);
    }
  }

  lemma HexReads(g: string, rest: string)
    requires Group(g) && (rest == "" || HexVal(rest[0]) < 0)
    ensures HexRun(g + rest, 0, 0) == (|g|, Value(g, 16)) && Count(g + rest) == |g|
  {
    assert "" + g == g;
    HexReadsFrom("", g, rest);
  }

  lemma {:induction false} DecReadsFrom(a: string, b: string, rest: string)
    requires DecText(a + b) && |a + b| <= 3
    requires rest == "" || !IsDigit(rest[0])
    ensures DecRun(b + rest, |a|, Value(a, 10)) == (|a + b|, Value(a + b, 10))
    decreases |b|
  {
    if b == "" {
      assert a + b == a && b + rest == rest;
    } else {
      ValueMore(a, b[0], 10);
      FirstMoves(a, b, rest);
      DecReadsFrom(a + [b[0]], b[1..], rest);
    }
  }

  lemma DecReads(n: nat, rest: string)
    requires n < 256 && (rest == "" || !IsDigit(rest[0]))
    ensures DecRun(Dec(n) + rest, 0, 0) == (|Dec(n)|, n) && Octets(Dec(n) + rest) == |Dec(n)| > 0
    ensures |Dec(n)| > 1 ==> (Dec(n) + rest)[0] != '0'
  {
    DecIsOctet(n);
    assert "" + Dec(n) == Dec(n);
    DecReadsFrom("", Dec(n), rest);
  }

  /** The array with the values of consecutive groups set. */
  function Put(ip: seq<int>, i: nat, groups: seq<string>): (r: seq<int>)
    requires i + |groups| <= |ip|
    ensures |r| == |ip|
    decreases |groups|
  {
    if groups == [] then ip else Put(ip[i := Value(groups[0], 16)], i + 1, groups[1..])
  }

  lemma {:induction false} PutAt(ip: seq<int>, i: nat, groups: seq<string>, k: nat)
    requires i + |groups| <= |ip| && k < |ip|
    ensures Put(ip, i, groups)[k] == if i <= k < i + |groups| then Value(groups[k - i], 16) else ip[k]
    decreases |groups|
  {
    if groups != [] {
      PutAt(ip[i := Value(groups[0], 16)], i + 1, groups[1..], k);
    }
  }

  /** One turn of the loop over a group that a colon follows. */
  lemma ScanGroup(g: string, rest: string, i: nat, brk: int, ip: seq<int>)
    requires |ip| == 8 && -1 <= brk < i && i < 7 && Group(g)
    ensures Scan(g + (":" + rest), i, brk, ip) == Scan(rest, i + 1, brk, ip[i := Value(g, 16)])
  {
    var t := g + (":" + rest);
    assert HexVal(g[0]) >= 0 && t[0] == g[0];
    HexReads(g, ":" + rest);
    assert t[|g|] == ':' && t[|g| + 1..] == rest;
  }

  /** The last turn, over a group that ends the text. */
  lemma ScanLast(g: string, i: nat, brk: int, ip: seq<int>)
    requires |ip| == 8 && -1 <= brk < i < 8 && Group(g) && (brk >= 0 || i == 7)
    ensures Scan(g, i, brk, ip) == Done(i, brk, ip[i := Value(g, 16)], NoTail)
  {
    assert HexVal(g[0]) >= 0;
    assert g + "" == g;
    HexReads(g, "");
  }

  /**
   The loop as a value, for lemmas that need no more of it than what a turn does (`Turns`): they follow
   the groups of an address and never look into `Scan`.
   */
  type Loop = (string, nat, int, seq<int>) -> Scanned

  function Scanning(): Loop {
    (t, i, brk, ip) => if i < 8 && |ip| == 8 && -1 <= brk < i then Scan(t, i, brk, ip) else Fail
  }

  /** What a turn does with a group, with the last group, and with `::`. */
  ghost predicate Turns(f: Loop) {
    && (forall g, rest, i, brk, ip :: |ip| == 8 && -1 <= brk < i && i < 7 && Group(g) ==>
          f(g + (":" + rest), i, brk, ip) == f(rest, i + 1, brk, ip[i := Value(g, 16)]))
    && (forall g, i, brk, ip :: |ip| == 8 && -1 <= brk < i && i < 8 && Group(g) && (brk >= 0 || i == 7) ==>
          f(g, i, brk, ip) == Done(i, brk, ip[i := Value(g, 16)], NoTail))
    && (forall rest, i: nat, ip :: |ip| == 8 && i < 8 && (rest == "" || i < 7) ==>
          (f(":" + rest, i, -1, ip)
           == if rest == "" then Done(i, i, ip[i := 0], NoTail) else f(rest, i + 1, i, ip[i := 0])))
  }

  lemma ScanTurns()
    ensures Turns(Scanning())
  {
    forall g, rest, i: nat, brk, ip | |ip| == 8 && -1 <= brk < i && i < 7 && Group(g)
      ensures Scanning()(g + (":" + rest), i, brk, ip) == Scanning()(rest, i + 1, brk, ip[i := Value(g, 16)])
    {
      ScanGroup(g, rest, i, brk, ip);
    }
    LastTurns();
    ColonTurns();
  }

  lemma LastTurns()
    ensures forall g, i: nat, brk, ip :: |ip| == 8 && -1 <= brk < i && i < 8 && Group(g) && (brk >= 0 || i == 7) ==>
              Scanning()(g, i, brk, ip) == Done(i, brk, ip[i := Value(g, 16)], NoTail)
  {
    forall g, i: nat, brk, ip | |ip| == 8 && -1 <= brk < i && i < 8 && Group(g) && (brk >= 0 || i == 7)
      ensures Scanning()(g, i, brk, ip) == Done(i, brk, ip[i := Value(g, 16)], NoTail)
    {
      ScanLast(g, i, brk, ip);
    }
  }

  lemma ColonTurns()
    ensures forall rest, i: nat, ip :: |ip| == 8 && i < 8 && (rest == "" || i < 7) ==>
              (Scanning()(":" + rest, i, -1, ip)
               == if rest == "" then Done(i, i, ip[i := 0], NoTail) else Scanning()(rest, i + 1, i, ip[i := 0]))
  {
    forall rest, i: nat, ip | |ip| == 8 && i < 8 && (rest == "" || i < 7)
      ensures (Scanning()(":" + rest, i, -1, ip)
               == if rest == "" then Done(i, i, ip[i := 0], NoTail) else Scanning()(rest, i + 1, i, ip[i := 0]))
    {
      ScanColon(rest, i, ip);
    }
  }

  /** The turn that meets `::`, whose first colon is behind. */
  lemma ScanColon(rest: string, i: nat, ip: seq<int>)
    requires |ip| == 8 && i < 8 && (rest == "" || i < 7)
    ensures (Scan(":" + rest, i, -1, ip)
             == if rest == "" then Done(i, i, ip[i := 0], NoTail) else Scan(rest, i + 1, i, ip[i := 0]))
  {
    assert (":" + rest)[1..] == rest;
  }

  /** Groups up to the end of the text: after `::`, or the last of eight. */
  lemma {:induction false} ScanToEnd(f: Loop, groups: seq<string>, i: nat, brk: int, ip: seq<int>)
    requires Turns(f)
    requires |ip| == 8 && -1 <= brk < i && i + |groups| <= 8 && groups != [] && Groups(groups)
    requires brk >= 0 || i + |groups| == 8
    ensures f(Join(groups), i, brk, ip) == Done(i + |groups| - 1, brk, Put(ip, i, groups), NoTail)
    decreases |groups|
  {
    var next := ip[i := Value(groups[0], 16)];
    if |groups| == 1 {
      assert Put(ip, i, groups) == Put(next, i + 1, []);
    } else {
      ScanToEnd(f, groups[1..], i + 1, brk, next);
    }
  }

  /** Groups before some other text. */
  lemma {:induction false} ScanOver(f: Loop, groups: seq<string>, rest: string, i: nat, brk: int, ip: seq<int>)
    requires Turns(f)
    requires |ip| == 8 && -1 <= brk < i && i + |groups| < 8 && Groups(groups)
    ensures f(Lead(groups, rest), i, brk, ip) == f(rest, i + |groups|, brk, Put(ip, i, groups))
    decreases |groups|
  {
    if groups != [] {
      ScanOver(f, groups[1..], rest, i + 1, brk, ip[i := Value(groups[0], 16)]);
    }
  }

  // ---- What is parsed

  function Zeros(n: nat): (z: seq<int>)
    ensures |z| == n && forall i :: 0 <= i < n ==> z[i] == 0
  {
    seq(n, _ => 0)
  }

  /** `::` and the groups after it. */
  lemma ScanGap(f: Loop, post: seq<string>, i: nat, ip: seq<int>)
    requires Turns(f) && |ip| == 8 && i + |post| < 8 && Groups(post)
    ensures f(":" + Join(post), i, -1, ip) == Done(i + |post|, i, Put(ip[i := 0], i + 1, post), NoTail)
  {
    if post != [] {
      JoinNotEmpty(post);
      ScanToEnd(f, post, i + 1, i, ip[i := 0]);
    }
  }

  lemma JoinNotEmpty(groups: seq<string>)
    requires groups != [] && Groups(groups)
    ensures |Join(groups)| > 0 && Join(groups)[0] != ':'
  {
    assert HexVal(groups[0][0]) >= 0;
    assert Join(groups)[0] == groups[0][0];
  }

  /** What the loop has written when it ends on a text with `::`. */
  function Gapped(ip: seq<int>, pre: seq<string>, post: seq<string>): (r: seq<int>)
    requires |ip| == 8 && |pre| + |post| < 8
    ensures |r| == 8
  {
    Put(Put(ip, 0, pre)[|pre| := 0], |pre| + 1, post)
  }

  lemma ScanGapped(f: Loop, pre: seq<string>, post: seq<string>, ip: seq<int>)
    requires Turns(f) && |ip| == 8 && |pre| + |post| < 8 && Groups(pre) && Groups(post)
    ensures (f(Lead(pre, ":" + Join(post)), 0, -1, ip)
             == Done(|pre| + |post|, |pre|, Gapped(ip, pre, post), NoTail))
  {
    ScanOver(f, pre, ":" + Join(post), 0, -1, ip);
    ScanGap(f, post, |pre|, Put(ip, 0, pre));
  }

  lemma ExpandGap(ip: seq<int>, pre: seq<string>, post: seq<string>, z: nat)
    requires |ip| == 8 && z >= 1 && |pre| + z + |post| == 8
    ensures (Expand(|pre| + |post|, |pre|, Gapped(ip, pre, post))
             == Values(pre) + Zeros(z) + Values(post))
  {
    var k := |pre|;
    var q := Gapped(ip, pre, post);
    forall j | 0 <= j < k + |post| + 1
      ensures q[j] == if j < k then Values(pre)[j] else if j == k then 0 else Values(post)[j - k - 1]
    {
      PutAt(ip, 0, pre, j);
      PutAt(Put(ip, 0, pre)[k := 0], k + 1, post, j);
    }
    assert q[..k] == Values(pre);
    assert q[k..k + |post| + 1] == [0] + Values(post);
    assert seq(7 - k - |post|, _ => 0) + [0] == Zeros(z);
  }

  lemma ParseVia(s: string, t: string, ip: seq<int>)
    requires |ip| == 8
    requires if s == "" || s[0] != ':' then s == t else s == ":" + t && t != "" && t[0] == ':'
    ensures Parse6(s, ip) == Finish(Scanning()(t, 0, -1, ip))
  {
    if s != "" && s[0] == ':' {
      assert s[1..] == t;
    }
  }

  lemma PutAll(ip: seq<int>, groups: seq<string>)
    requires |ip| == |groups|
    ensures Put(ip, 0, groups) == Values(groups)
  {
    forall k | 0 <= k < |ip| ensures Put(ip, 0, groups)[k] == Values(groups)[k] {
      PutAt(ip, 0, groups, k);
    }
  }

  /** Eight groups denote themselves, whatever the case and the leading zeros of their digits. */
  lemma ParsesFull(groups: seq<string>, ip: seq<int>)
    requires |ip| == 8 && |groups| == 8 && Groups(groups)
    ensures Parse6(Join(groups), ip) == (true, Bytes(Values(groups)))
  {
    ScanTurns();
    JoinNotEmpty(groups);
    ScanToEnd(Scanning(), groups, 0, -1, ip);
    ParseVia(Join(groups), Join(groups), ip);
    PutAll(ip, groups);
  }

  /**
   `::` stands for as many zero groups as are missing, one or more, wherever it stands
   (section 2.2 of RFC 4291).
   */
  lemma ParsesShort(pre: seq<string>, post: seq<string>, z: nat, ip: seq<int>)
    requires |ip| == 8 && z >= 1 && |pre| + z + |post| == 8 && Groups(pre) && Groups(post)
    ensures (Parse6(Short(pre, post), ip)
             == (true, Bytes(Values(pre) + Zeros(z) + Values(post))))
  {
    ScanTurns();
    ScanGapped(Scanning(), pre, post, ip);
    ExpandGap(ip, pre, post, z);
    ShortStart(pre, post);
    ParseVia(Short(pre, post), Lead(pre, ":" + Join(post)), ip);
  }

  /** A text with `::` between two lists of groups. */
  function Short(pre: seq<string>, post: seq<string>): string {
    Join(pre) + ("::" + Join(post))
  }

  lemma ShortStart(pre: seq<string>, post: seq<string>)
    requires Groups(pre) && Groups(post)
    ensures var (s, t) := (Short(pre, post), Lead(pre, ":" + Join(post)));
      s != "" && if s[0] != ':' then s == t else s == ":" + t && t != "" && t[0] == ':'
  {
    if pre == [] {
      assert Short(pre, post) == ":" + (":" + Join(post));
    } else {
      LeadIsJoin(pre, ":" + Join(post));
      assert "::" + Join(post) == ":" + (":" + Join(post));
      JoinNotEmpty(pre);
      assert Short(pre, post)[0] == Join(pre)[0];
    }
  }

  // ---- Dotted text

  /** Octets separated by dots. */
  function DottedText(octets: seq<nat>): string
    requires forall i :: 0 <= i < |octets| ==> octets[i] < 256
  {
    if octets == [] then ""
    else if |octets| == 1 then Dec(octets[0])
    else Dec(octets[0]) + ("." + DottedText(octets[1..]))
  }

  lemma ScanOctet(n: nat, rest: string, a: seq<int>)
    requires n < 256 && |a| < 3
    ensures Scan4(Dec(n) + ("." + rest), a) == Scan4(rest, a + [n])
  {
    var t := Dec(n) + ("." + rest);
    DecReads(n, "." + rest);
    assert t[|Dec(n)|] == '.' && t[|Dec(n)| + 1..] == rest;
  }

  lemma ScanLastOctet(n: nat, a: seq<int>)
    requires n < 256 && |a| == 3
    ensures Scan4(Dec(n), a) == (true, a + [n])
  {
    assert Dec(n) + "" == Dec(n);
    DecReads(n, "");
  }

  /** Octets up to the fourth. */
  lemma {:induction false} ParsesOctets(octets: seq<nat>, a: seq<int>)
    requires |a| + |octets| == 4 && octets != [] && forall i :: 0 <= i < |octets| ==> octets[i] < 256
    ensures Scan4(DottedText(octets), a) == (true, a + octets)
    decreases |octets|
  {
    var n := octets[0];
    if |octets| == 1 {
      assert octets == [n];
      ScanLastOctet(n, a);
    } else {
      var text := DottedText(octets[1..]);
      ScanOctet(n, text, a);
      ParsesOctets(octets[1..], a + [n]);
      assert octets == [n] + octets[1..];
      AppendAssociates(a, [n], octets[1..]);
    }
  }

  lemma ParsesDotted(octets: seq<nat>)
    requires |octets| == 4 && forall i :: 0 <= i < 4 ==> octets[i] < 256
    ensures Scan4(DottedText(octets), []) == (true, octets)
  {
    ParsesOctets(octets, []);
    assert [] + octets == octets;
  }

  lemma DecIsGroup(n: nat)
    requires n < 256
    ensures Group(Dec(n))
  {
    DecIsOctet(n);
    forall i | 0 <= i < |Dec(n)| ensures HexVal(Dec(n)[i]) >= 0 {
      assert IsDigit(Dec(n)[i]);
    }
  }

  /** An octet where a group is expected: the dot ends the loop and leaves the dotted text. */
  lemma ScanDotted(n: nat, rest: string, i: nat, brk: int, ip: seq<int>)
    requires |ip| == 8 && 0 <= brk < i < 7 && n < 256
    ensures var t := Dec(n) + ("." + rest);
      Scan(t, i, brk, ip) == Done(i + 1, brk, ip[i := Value(Dec(n), 16)], TailAt(t))
  {
    var t := Dec(n) + ("." + rest);
    DecIsGroup(n);
    assert HexVal(t[0]) >= 0;
    HexReads(Dec(n), "." + rest);
    assert t[|Dec(n)|] == '.';
  }

  lemma FfffValue()
    ensures Value("ffff", 16) == 0xffff && Group("ffff")
  {
    assert "ffff"[..3] == "fff" && "fff"[..2] == "ff" && "ff"[..1] == "f" && "f"[..0] == "";
    assert Value("f", 16) == 15 && Value("ff", 16) == 255 && Value("fff", 16) == 4095;
  }

  /** The loop over the text of a mapped address, after the first colon. */
  lemma ScanMapped(n: nat, rest: string, ip: seq<int>)
    requires |ip| == 8 && n < 256
    ensures var d := Dec(n) + ("." + rest);
      (Scan(":" + ("ffff" + (":" + d)), 0, -1, ip)
       == Done(3, 0, ip[0 := 0][1 := 0xffff][2 := Value(Dec(n), 16)], TailAt(d)))
  {
    var d := Dec(n) + ("." + rest);
    var t := "ffff" + (":" + d);
    assert (":" + t)[1..] == t;
    FfffValue();
    ScanGroup("ffff", d, 1, 0, ip[0 := 0]);
    ScanDotted(n, rest, 2, 0, ip[0 := 0][1 := 0xffff]);
  }

  lemma MappedGroups(ip: seq<int>)
    requires |ip| == 8 && ip[0] == 0 && ip[1] == 0xffff
    ensures forall k :: 0 <= k < 5 ==> Expand(3, 0, ip)[k] == 0
    ensures Expand(3, 0, ip)[5] == 0xffff
  {
    assert Expand(3, 0, ip) == seq(4, _ => 0) + ip[..4];
  }

  lemma {:induction false} BytesAppend(a: seq<int>, b: seq<int>)
    ensures Bytes(a + b) == Bytes(a) + Bytes(b)
  {
    if a == [] {
      assert a + b == b;
    } else {
      assert (a + b)[1..] == a[1..] + b;
      BytesAppend(a[1..], b);
    }
  }

  lemma {:induction false} BytesOfZeros(n: nat)
    ensures Bytes(Zeros(n)) == Zeros(2 * n)
  {
    if n > 0 {
      assert Zeros(n)[1..] == Zeros(n - 1);
      BytesOfZeros(n - 1);
    }
  }

  lemma MappedBytes(q: seq<int>)
    requires |q| == 8 && q[5] == 0xffff && forall k :: 0 <= k < 5 ==> q[k] == 0
    ensures Bytes(q)[..12] == Zeros(10) + [255, 255]
  {
    assert q == Zeros(5) + ([0xffff] + q[6..]);
    BytesAppend(Zeros(5), [0xffff] + q[6..]);
    BytesOfZeros(5);
    assert ([0xffff] + q[6..])[1..] == q[6..];
  }

  lemma ParsesMapped(a: seq<nat>, ip: seq<int>)
    requires |ip| == 8 && |a| == 4 && forall i :: 0 <= i < 4 ==> a[i] < 256
    ensures Parse6("::ffff:" + DottedText(a), ip) == (true, Zeros(10) + [255, 255] + a)
  {
    var rest := DottedText(a[1..]);
    var d := Dec(a[0]) + ("." + rest);
    ParsesDotted(a);
    FinishMapped(a, rest, d, ip);
    MappedText(d);
    ParseVia("::ffff:" + d, ":" + ("ffff" + (":" + d)), ip);
  }

  lemma FinishMapped(a: seq<nat>, rest: string, d: string, ip: seq<int>)
    requires |ip| == 8 && |a| == 4 && a[0] < 256 && d == Dec(a[0]) + ("." + rest)
    requires Scan4(d, []) == (true, a)
    ensures Finish(Scan(":" + ("ffff" + (":" + d)), 0, -1, ip)) == (true, Zeros(10) + [255, 255] + a)
  {
    var end := ip[0 := 0][1 := 0xffff][2 := Value(Dec(a[0]), 16)];
    ScanMapped(a[0], rest, ip);
    MappedGroups(end);
    MappedBytes(Expand(3, 0, end));
  }

  lemma MappedText(d: string)
    ensures "::ffff:" + d == ":" + (":" + ("ffff" + (":" + d)))
  {}

  // ---- Memory that was not initialised

  /** Two runs of the loop that differ in groups not yet read end alike. */
  lemma {:induction false} ScanIgnores(t: string, i: nat, brk: int, ip: seq<int>, ip': seq<int>)
    requires i < 8 && |ip| == 8 && |ip'| == 8 && -1 <= brk < i && ip[..i] == ip'[..i]
    ensures var (r, r') := (Scan(t, i, brk, ip), Scan(t, i, brk, ip'));
      if r.Fail? then r'.Fail?
      else
        && r'.Done? && r'.i == r.i && r'.brk == r.brk && r'.v4 == r.v4
        && r.ip[..r.i] == r'.ip[..r.i]
        && (r.v4.NoTail? ==> r.ip[r.i] == r'.ip[r.i] && (r.brk >= 0 || r.i == 7))
        && (r.v4.TailAt? ==> r.brk >= 0 || r.i == 7)
    decreases 8 - i
  {
    if t != "" && t[0] == ':' && brk < 0 {
      if |t| > 1 && i < 7 {
        NextAgrees(ip, ip', i, 0);
        ScanIgnores(t[1..], i + 1, i, ip[i := 0], ip'[i := 0]);
      }
    } else {
      var (j, v) := HexRun(t, 0, 0);
      NextAgrees(ip, ip', i, v);
      if 0 < j < |t| && i < 7 && t[j] == ':' {
        ScanIgnores(t[j + 1..], i + 1, brk, ip[i := v], ip'[i := v]);
      }
    }
  }

  lemma NextAgrees(ip: seq<int>, ip': seq<int>, i: nat, v: int)
    requires i < |ip| == |ip'| && ip[..i] == ip'[..i]
    ensures ip[i := v][..i + 1] == ip'[i := v][..i + 1]
  {
    assert ip[i := v][..i + 1] == ip[..i] + [v];
    assert ip'[i := v][..i + 1] == ip'[..i] + [v];
  }

  lemma ExpandAgrees(i: nat, brk: int, ip: seq<int>, ip': seq<int>)
    requires i < 8 && |ip| == 8 && |ip'| == 8 && -1 <= brk <= i && ip[..i] == ip'[..i]
    requires brk >= 0 || i == 7
    ensures Expand(i, brk, ip)[..7] == Expand(i, brk, ip')[..7]
    ensures ip[i] == ip'[i] ==> Expand(i, brk, ip) == Expand(i, brk, ip')
  {
    forall k | 0 <= k < 7 || (k == 7 && ip[i] == ip'[i]) ensures Expand(i, brk, ip)[k] == Expand(i, brk, ip')[k] {
      ExpandAt(i, brk, ip, k);
      ExpandAt(i, brk, ip', k);
      var from := if brk < 0 || k < brk then k else k - (7 - i);
      if 0 <= from < i { assert ip[..i][from] == ip'[..i][from]; }
    }
  }

  /** Where a group of the expanded array comes from. */
  lemma ExpandAt(i: nat, brk: int, ip: seq<int>, k: nat)
    requires i < 8 && |ip| == 8 && -1 <= brk <= i && k < 8
    ensures (Expand(i, brk, ip)[k]
             == if brk < 0 || k < brk then ip[k] else if k < brk + 7 - i then 0 else ip[k - (7 - i)])
  {}

  /** What the array of groups holds before does not show in the result. */
  lemma GarbageStaysInside(s: string, ip: seq<int>, ip': seq<int>)
    requires |ip| == 8 && |ip'| == 8
    ensures Parse6(s, ip) == Parse6(s, ip')
  {
    if s == "" || s[0] != ':' {
      ScanFinishes(s, ip, ip');
    } else if |s| > 1 && s[1] == ':' {
      ScanFinishes(s[1..], ip, ip');
    }
  }

  lemma ScanFinishes(t: string, ip: seq<int>, ip': seq<int>)
    requires |ip| == 8 && |ip'| == 8
    ensures Finish(Scan(t, 0, -1, ip)) == Finish(Scan(t, 0, -1, ip'))
  {
    var (r, r') := (Scan(t, 0, -1, ip), Scan(t, 0, -1, ip'));
    ScanIgnores(t, 0, -1, ip, ip');
    if r.Done? {
      ExpandAgrees(r.i, r.brk, r.ip, r'.ip);
      if r.v4.TailAt? {
        BytesPrefix(Expand(r.i, r.brk, r.ip));
        BytesPrefix(Expand(r.i, r.brk, r'.ip));
      }
    }
  }

  lemma BytesPrefix(q: seq<int>)
    requires |q| == 8
    ensures Bytes(q)[..12] == Bytes(q[..7])[..12]
  {
    assert q == q[..7] + q[7..];
    BytesAppend(q[..7], q[7..]);
  }
}
