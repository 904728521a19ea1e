/** macaron's encoder and decoder, which index into the text instead of accumulating bits. */
module Macaron {
  import opened Base64
  import opened Text

  const SIZE_MAX: nat := 0x1_0000_0000_0000_0000

  /** `in_len - 2` in `size_t`. */
  function Bound(n: nat): nat {
    (n + SIZE_MAX - 2) % SIZE_MAX
  }

  /** The loop over whole groups reads inside the data exactly if there are two bytes or more. */
  lemma LoopStaysInside(n: nat)
    requires n < SIZE_MAX
    ensures (forall i: nat :: i % 3 == 0 && i < Bound(n) ==> i + 2 < n) <==> n >= 2
  {
    if n >= 2 {
      assert Bound(n) == n - 2;
    } else {
      assert 0 % 3 == 0 && 0 < Bound(n);
    }
  }

  method PutFour(buf: array<char>, p: nat, a: char, b: char, c: char, d: char)
    requires p + 4 <= buf.Length
    modifies buf
    ensures buf[..p + 4] == old(buf[..p]) + [a, b, c, d]
  {
    buf[p], buf[p + 1], buf[p + 2], buf[p + 3] := a, b, c, d;
  }

  /** One turn of the loop. */
  method PutGroup(buf: array<char>, p: nat, rest: string, ghost e: Code)
    requires |rest| >= 3 && p + 4 <= buf.Length && e == TheCode()
    modifies buf
    ensures buf[..p + 4] + Spelled(e, rest[3..]) == old(buf[..p]) + Spelled(e, rest)
  {
    SpelledThree(e, rest);
    ghost var quad := [e.first(rest[0]), e.second(rest[0], rest[1]), e.third(rest[1], rest[2]), e.fourth(rest[2])];
    AppendAssociates(buf[..p], quad, Spelled(e, rest[3..]));
    PutFour(buf, p, First(rest[0]), Second(rest[0], rest[1]), Third(rest[1], rest[2]), Fourth(rest[2]));
  }

  /** The last group, of one byte or two. */
  method PutLast(buf: array<char>, p: nat, rest: string, ghost e: Code)
    requires 1 <= |rest| <= 2 && p + 4 <= buf.Length && e == TheCode()
    modifies buf
    ensures buf[..p + 4] == old(buf[..p]) + Spelled(e, rest)
  {
    SpelledShort(e, rest);
    if |rest| == 1 {
      PutFour(buf, p, First(rest[0]), Second(rest[0], NUL), '=', '=');
    } else {
      PutFour(buf, p, First(rest[0]), Second(rest[0], rest[1]), Third(rest[1], NUL), '=');
    }
  }

  lemma RoomLeft(e: Code, done: string, rest: string, length: nat)
    requires |done + Spelled(e, rest)| == length && rest != ""
    ensures |done| + 4 <= length && (|rest| <= 2 ==> |done| + 4 == length)
  {
    SpelledLength(e, rest);
  }

  method EncodeInto(data: string, ghost e: Code) returns (buf: array<char>)
    requires 2 <= |data| < SIZE_MAX && e == TheCode()
    ensures buf[..] == Spelled(e, data)
  {
    ghost var all := Spelled(e, data);
    SpelledLength(e, data);
    buf := new char[4 * ((|data| + 2) / 3)];
    var i, p := 0, 0;
    assert data[0..] == data && "" + all == all;
    while i < Bound(|data|)
      invariant 0 <= i <= |data| && 0 <= p <= buf.Length && fresh(buf) && buf.Length == |all|
      invariant buf[..p] + Spelled(e, data[i..]) == all
    {
      var rest := data[i..];
      RoomLeft(e, buf[..p], rest, |all|);
      PutGroup(buf, p, rest, e);
      DropTwice(data, i, 3);
      i, p := i + 3, p + 4;
    }
    var rest := data[i..];
    if i < |data| {
      RoomLeft(e, buf[..p], rest, |all|);
      PutLast(buf, p, rest, e);
      assert buf[..p + 4] == buf[..];
    } else {
      assert buf[..p] + "" == buf[..p];
      assert buf[..p] == buf[..];
    }
  }

  /** Whole groups into the buffer, then a short last group: the definition again. */
  method Encode(data: string) returns (ret: string)
    requires IsBytes(data) && 2 <= |data| < SIZE_MAX
    ensures ret == Encoded(data)
  {
    ghost var e := TheCode();
    SpelledIsEncoded(e, data);
    var buf := EncodeInto(data, e);
    ret := buf[..];
  }

  // ---- Decoding

  /** The decoding table; 64 marks what is not in the alphabet. */
  function TableValue(c: char): (v: nat)
    ensures v <= 64
  {
    if 'A' <= c <= 'Z' then Ord(c) - Ord('A')
    else if 'a' <= c <= 'z' then Ord(c) - Ord('a') + 26
    else if '0' <= c <= '9' then Ord(c) - Ord('0') + 52
    else if c == '+' then 62 else if c == '/' then 63 else 64
  }

  function SymbolValue(c: char): (v: nat)
    ensures v <= 64
  {
    if c == '=' then 0 else TableValue(c)
  }

  lemma SymbolComesBack(d: int)
    requires 0 <= d < 64
    ensures SymbolValue(Symbol(d)) == d && Symbol(d) != '='
  {}

  /** The sum never leaves 32 bits, whatever the characters are. */
  function Triple(a: char, b: char, c: char, d: char): (t: nat)
    ensures t < 0x1_0000_0000
  {
    SymbolValue(a) * 0x40000 + SymbolValue(b) * 0x1000 + SymbolValue(c) * 64 + SymbolValue(d)
  }

  function ThreeBytes(a: char, b: char, c: char, d: char): (r: string)
    ensures |r| == 3
  {
    var t := Triple(a, b, c, d);
    [(t / 0x10000 % 256) as char, (t / 0x100 % 256) as char, (t % 256) as char]
  }

  /** How four characters are decoded, as a value: lemmas on the grouping do without its table and shifts. */
  type Decoder = (char, char, char, char) -> string

  /** The bytes of whole groups of four characters. */
  function Groups(f: Decoder, input: string): string {
    if |input| < 4 then "" else f(input[0], input[1], input[2], input[3]) + Groups(f, input[4..])
  }

  function OutLength(input: string): int
    requires |input| >= 2
  {
    |input| / 4 * 3 - (if input[|input| - 1] == '=' then 1 else 0) - (if input[|input| - 2] == '=' then 1 else 0)
  }

  lemma {:induction false} GroupsLength(f: Decoder, input: string)
    requires |input| % 4 == 0 && forall a, b, c, d :: |f(a, b, c, d)| == 3
    ensures |Groups(f, input)| == |input| / 4 * 3
  {
    if input != "" {
      GroupsLength(f, input[4..]);
      assert |input| / 4 == 1 + |input[4..]| / 4;
    }
  }

  function Decoded(input: string): string
    requires |input| % 4 == 0 && input != ""
  {
    GroupsLength(ThreeBytes, input);
    Groups(ThreeBytes, input)[..OutLength(input)]
  }

  datatype Result = Ok(out: string) | Error(message: string)

  /** `static_cast<int>` of a signed character. */
  function TableIndex(c: char): int {
    if Ord(c) < 128 then Ord(c) else Ord(c) - 256
  }

  /** What `Decode` reads by an index in `size_t` is in the text, and by a character, in the table. */
  ghost predicate ReadsInside(input: string) {
    |input| % 4 == 0 ==>
      && (|input| + SIZE_MAX - 1) % SIZE_MAX < |input| && (|input| + SIZE_MAX - 2) % SIZE_MAX < |input|
      && forall i :: 0 <= i < |input| && input[i] != '=' ==> 0 <= TableIndex(input[i]) < 256
  }

  predicate Ascii(s: string) {
    forall i :: 0 <= i < |s| ==> Ord(s[i]) < 128
  }

  /** Every read is inside exactly if the text is refused for its length, or is not empty and ASCII. */
  lemma DecodeStaysInside(input: string)
    requires IsBytes(input) && |input| < SIZE_MAX
    ensures ReadsInside(input) <==> |input| % 4 != 0 || (input != "" && Ascii(input))
  {
    if |input| % 4 == 0 && input != "" {
      EndsInside(|input|);
      assert Ord('=') < 128;
    }
  }

  lemma EndsInside(n: nat)
    requires 2 <= n < SIZE_MAX
    ensures (n + SIZE_MAX - 1) % SIZE_MAX == n - 1 && (n + SIZE_MAX - 2) % SIZE_MAX == n - 2
  {}

  method Decode(input: string) returns (r: Result)
    requires |input| % 4 != 0 || (input != "" && Ascii(input))
    ensures |input| % 4 != 0 ==> r == Error("Input data size is not a multiple of 4")
    ensures |input| % 4 == 0 ==> r == Ok(Decoded(input))
  {
    if |input| % 4 != 0 { return Error("Input data size is not a multiple of 4"); }
    GroupsLength(ThreeBytes, input);
    var out := new char[OutLength(input)];
    DecodeInto(input, out, ThreeBytes, |input| / 4);
    r := Ok(out[..]);
  }

  method DecodeInto(input: string, out: array<char>, ghost f: Decoder, ghost n: nat)
    requires |input| == 4 * n && f == ThreeBytes && out.Length <= |Groups(f, input)|
    modifies out
    ensures out[..] == Groups(f, input)[..out.Length]
  {
    var i, j := 0, 0;
    ghost var all := Groups(f, input);
    ghost var read, q := "", 0;
    assert input[0..] == input && "" + all == all;
    while i < |input|
      invariant 0 <= i <= |input| && i == 4 * q && q <= n
      invariant read + Groups(f, input[i..]) == all && Holding(out, j, read)
    {
      j, read := DecodeTurn(input, i, out, j, read, f);
      i, q := i + 4, q + 1;
    }
    AllHeld(out, j, read, all);
  }

  lemma AllHeld(out: array<char>, j: int, read: string, all: string)
    requires Holding(out, j, read) && read + "" == all && out.Length <= |all|
    ensures out[..] == all[..out.Length]
  {
    assert read == all;
    assert out[..j] == out[..];
  }

  method DecodeTurn(input: string, i: nat, out: array<char>, j: int, ghost read: string, ghost f: Decoder)
    returns (j': int, ghost read': string)
    requires Holding(out, j, read) && f == ThreeBytes && i + 4 <= |input|
    modifies out
    ensures Holding(out, j', read') && read' + Groups(f, input[i + 4..]) == read + Groups(f, input[i..])
  {
    read' := read + f(input[i], input[i + 1], input[i + 2], input[i + 3]);
    GroupsAt(f, input, i);
    AppendAssociates(read, f(input[i], input[i + 1], input[i + 2], input[i + 3]), Groups(f, input[i + 4..]));
    j' := PutQuad(out, j, input[i], input[i + 1], input[i + 2], input[i + 3], read, f);
  }

  lemma GroupsAt(f: Decoder, input: string, i: nat)
    requires i + 4 <= |input|
    ensures (Groups(f, input[i..])
             == f(input[i], input[i + 1], input[i + 2], input[i + 3]) + Groups(f, input[i + 4..]))
  {
    DropTwice(input, i, 4);
  }

  method PutQuad(out: array<char>, j: int, a: char, b: char, c: char, d: char, ghost read: string, ghost f: Decoder)
    returns (j': int)
    requires Holding(out, j, read) && f == ThreeBytes
    modifies out
    ensures Holding(out, j', read + f(a, b, c, d))
  {
    var t := Triple(a, b, c, d);
    j' := PutThree(out, j, t, read, f(a, b, c, d));
  }

  /** The output holds what was read, as far as there is room. */
  ghost predicate Holding(out: array<char>, j: int, read: string)
    reads out
  {
    j == (if |read| < out.Length then |read| else out.Length) && out[..j] == read[..j]
  }

  method PutThree(out: array<char>, j: nat, t: nat, ghost read: string, ghost three: string) returns (j': nat)
    requires Holding(out, j, read)
    requires three == [(t / 0x10000 % 256) as char, (t / 0x100 % 256) as char, (t % 256) as char]
    modifies out
    ensures Holding(out, j', read + three)
  {
    j' := PutByte(out, j, t / 0x10000 % 256, read);
    j' := PutByte(out, j', t / 0x100 % 256, read + [three[0]]);
    j' := PutByte(out, j', t % 256, read + [three[0]] + [three[1]]);
    assert read + [three[0]] + [three[1]] + [three[2]] == read + three;
  }

  /** A byte goes out if there is room for it. */
  method PutByte(out: array<char>, j: nat, byte: nat, ghost read: string) returns (j': nat)
    requires byte < 256 && Holding(out, j, read)
    modifies out
    ensures Holding(out, j', read + [byte as char])
  {
    j' := j;
    if j < out.Length {
      out[j] := byte as char;
      j' := j + 1;
    }
  }

  // ---- The round trip

  /** What decoding has to undo: groups of four symbols, and the short last groups. */
  ghost predicate Undoes(f: Decoder, e: Code) {
    && (forall x, y, z :: Ord(x) < 256 && Ord(y) < 256 && Ord(z) < 256 ==>
          f(e.first(x), e.second(x, y), e.third(y, z), e.fourth(z)) == [x, y, z])
    && (forall x, y :: Ord(x) < 256 && Ord(y) < 256 ==>
          f(e.first(x), e.second(x, y), e.third(y, NUL), '=') == [x, y, NUL])
    && (forall x :: Ord(x) < 256 ==> f(e.first(x), e.second(x, NUL), '=', '=') == [x, NUL, NUL])
    && NoPadding(e)
  }

  ghost predicate NoPadding(e: Code) {
    (forall y, z :: e.third(y, z) != '=') && (forall z :: e.fourth(z) != '=')
  }

  lemma GroupsMore(f: Decoder, a: char, b: char, c: char, d: char, rest: string)
    ensures Groups(f, [a, b, c, d] + rest) == f(a, b, c, d) + Groups(f, rest)
  {
    assert ([a, b, c, d] + rest)[4..] == rest;
  }

  function Fill(n: nat): string {
    if n % 3 == 1 then [NUL, NUL] else if n % 3 == 2 then [NUL] else ""
  }

  lemma {:induction false} GroupsUndo(f: Decoder, e: Code, s: string)
    requires Undoes(f, e) && IsBytes(s)
    ensures Groups(f, Spelled(e, s)) == s + Fill(|s|)
  {
    if |s| >= 3 {
      SpelledThree(e, s);
      GroupsUndo(f, e, s[3..]);
      GroupsMore(f, e.first(s[0]), e.second(s[0], s[1]), e.third(s[1], s[2]), e.fourth(s[2]), Spelled(e, s[3..]));
      ThreeFirst(s, Fill(|s|));
    } else if |s| == 2 {
      SpelledShort(e, s);
      GroupsMore(f, e.first(s[0]), e.second(s[0], s[1]), e.third(s[1], NUL), '=', "");
      ShortText(s);
      assert Groups(f, "") == "";
    } else if |s| == 1 {
      SpelledShort(e, s);
      GroupsMore(f, e.first(s[0]), e.second(s[0], NUL), '=', '=', "");
      ShortText(s);
      assert Groups(f, "") == "";
    } else {
      assert s + Fill(0) == "";
    }
  }

  lemma ThreeFirst(s: string, fill: string)
    requires |s| >= 3
    ensures [s[0], s[1], s[2]] + (s[3..] + fill) == s + fill
    ensures Fill(|s[3..]|) == Fill(|s|)
  {}

  lemma ShortText(s: string)
    requires 1 <= |s| <= 2
    ensures |s| == 1 ==> s + Fill(1) == [s[0], NUL, NUL] + ""
    ensures |s| == 2 ==> s + Fill(2) == [s[0], s[1], NUL] + ""
  {}

  /** The padding at the end of the text says how long the last group is. */
  lemma {:induction false} SpelledEnd(e: Code, s: string)
    requires s != "" && NoPadding(e)
    ensures var t := Spelled(e, s);
      && |t| >= 4 && (t[|t| - 1] == '=' <==> |s| % 3 != 0) && (t[|t| - 2] == '=' <==> |s| % 3 == 1)
  {
    if |s| > 3 {
      SpelledThree(e, s);
      SpelledEnd(e, s[3..]);
      var (t, u) := (Spelled(e, s), Spelled(e, s[3..]));
      assert t[|t| - 1] == u[|u| - 1] && t[|t| - 2] == u[|u| - 2];
    } else if |s| == 3 {
      SpelledThree(e, s);
      assert Spelled(e, s[3..]) == "";
    } else {
      SpelledShort(e, s);
    }
  }

  /** The length of the output is that of the text that was encoded. */
  lemma OutLengthIs(e: Code, s: string)
    requires s != "" && NoPadding(e)
    ensures |Spelled(e, s)| >= 2 && OutLength(Spelled(e, s)) == |s|
  {
    SpelledEnd(e, s);
    SpelledLength(e, s);
    var k := (|s| + 2) / 3;
    assert |Spelled(e, s)| / 4 == k;
    assert |s| == 3 * (|s| / 3) + |s| % 3;
  }

  /** Four symbols of a group, through the table, are its three bytes. */
  lemma GroupComesBack(x: char, y: char, z: char)
    requires Ord(x) < 256 && Ord(y) < 256 && Ord(z) < 256
    ensures Triple(First(x), Second(x, y), Third(y, z), Fourth(z)) == Group(x, y, z)
  {
    var (xh, xl, yh, yl, zh, zl) := (Ord(x) / 4, Ord(x) % 4, Ord(y) / 16, Ord(y) % 16, Ord(z) / 64, Ord(z) % 64);
    Small(xh);
    Small(xl * 16 + yh);
    Small(yl * 4 + zh);
    SymbolComesBack(xh);
    SymbolComesBack(xl * 16 + yh);
    SymbolComesBack(yl * 4 + zh);
    SymbolComesBack(zl);
  }

  lemma BytesOfGroup(x: char, y: char, z: char)
    requires Ord(x) < 256 && Ord(y) < 256 && Ord(z) < 256
    ensures var t := Group(x, y, z);
      t / 0x10000 % 256 == Ord(x) && t / 0x100 % 256 == Ord(y) && t % 256 == Ord(z)
  {
    Div256(Ord(x) * 256 + Ord(y), Ord(z));
    Div256(Ord(x), Ord(y));
    Div65536(Ord(x), Ord(y) * 256 + Ord(z));
  }

  lemma Div256(q: int, r: int)
    requires 0 <= r < 256
    ensures (256 * q + r) / 256 == q && (256 * q + r) % 256 == r
  {}

  lemma Div65536(q: int, r: int)
    requires 0 <= r < 0x10000
    ensures (0x10000 * q + r) / 0x10000 == q
  {}

  lemma ThreeComeBack(x: char, y: char, z: char)
    requires Ord(x) < 256 && Ord(y) < 256 && Ord(z) < 256
    ensures ThreeBytes(First(x), Second(x, y), Third(y, z), Fourth(z)) == [x, y, z]
  {
    GroupComesBack(x, y, z);
    BytesOfGroup(x, y, z);
  }

  /** Padding decodes as the symbol for zero bits. */
  lemma PaddingIsZero(x: char, y: char)
    ensures SymbolValue(Fourth(NUL)) == 0 == SymbolValue('=')
    ensures SymbolValue(Third(NUL, NUL)) == 0
  {}

  lemma ShortComeBack(x: char, y: char)
    requires Ord(x) < 256 && Ord(y) < 256
    ensures ThreeBytes(First(x), Second(x, y), Third(y, NUL), '=') == [x, y, NUL]
    ensures ThreeBytes(First(x), Second(x, NUL), '=', '=') == [x, NUL, NUL]
  {
    PaddingIsZero(x, y);
    ThreeComeBack(x, y, NUL);
    ThreeComeBack(x, NUL, NUL);
    assert Triple(First(x), Second(x, y), Third(y, NUL), '=')
        == Triple(First(x), Second(x, y), Third(y, NUL), Fourth(NUL));
    assert (Triple(First(x), Second(x, NUL), '=', '=')
            == Triple(First(x), Second(x, NUL), Third(NUL, NUL), Fourth(NUL)));
  }

  lemma CodeHasNoPadding()
    ensures NoPadding(TheCode())
  {
    var e := TheCode();
    forall y, z ensures e.third(y, z) != '=' {
      SymbolComesBack((Ord(y) % 16 * 4 + Ord(z) / 64) % 64);
    }
    forall z ensures e.fourth(z) != '=' {
      SymbolComesBack(Ord(z) % 64);
    }
  }

  lemma DecoderUndoes(f: Decoder, e: Code)
    requires f == ThreeBytes && e.first == First && e.second == Second && e.third == Third && e.fourth == Fourth
    requires NoPadding(e)
    ensures Undoes(f, e)
  {
    forall x, y, z | Ord(x) < 256 && Ord(y) < 256 && Ord(z) < 256
      ensures f(e.first(x), e.second(x, y), e.third(y, z), e.fourth(z)) == [x, y, z]
    {
      ThreeComeBack(x, y, z);
    }
    forall x, y | Ord(x) < 256 && Ord(y) < 256
      ensures f(e.first(x), e.second(x, y), e.third(y, NUL), '=') == [x, y, NUL]
    {
      ShortComeBack(x, y);
    }
    forall x | Ord(x) < 256
      ensures f(e.first(x), e.second(x, NUL), '=', '=') == [x, NUL, NUL]
    {
      ShortComeBack(x, NUL);
    }
  }

  lemma SpelledComesBack(f: Decoder, e: Code, s: string)
    requires Undoes(f, e) && s != "" && IsBytes(s)
    ensures var t := Spelled(e, s);
      |t| % 4 == 0 && |t| >= 2 && 0 <= OutLength(t) <= |Groups(f, t)| && Groups(f, t)[..OutLength(t)] == s
  {
    SpelledLength(e, s);
    Fours((|s| + 2) / 3);
    OutLengthIs(e, s);
    GroupsUndo(f, e, s);
    CutFill(s, Groups(f, Spelled(e, s)));
  }

  lemma Fours(k: nat)
    ensures 4 * k % 4 == 0
  {}

  lemma CutFill(s: string, g: string)
    requires g == s + Fill(|s|)
    ensures |s| <= |g| && g[..|s|] == s
  {}

  /** Decoding what either encoder makes of a non-empty text gives the text back. */
  lemma DecodeUndoesEncode(s: string)
    requires s != "" && IsBytes(s)
    ensures |Encoded(s)| % 4 == 0 && Encoded(s) != "" && Decoded(Encoded(s)) == s
  {
    var e := TheCode();
    CodeHasNoPadding();
    DecoderUndoes(ThreeBytes, e);
    SpelledComesBack(ThreeBytes, e, s);
    SpelledIsEncoded(e, s);
  }
}
