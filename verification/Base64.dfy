/** Base64: the bit accumulator of cpp-httplib against the definition by groups of 24 bits (section 4 of RFC 4648). */
module Base64 {
  import opened Text

  function Ord(c: char): nat {
    c as int
  }

  /** The alphabet: upper case, lower case, digits, `+` and `/`. */
  function Symbol(d: int): char
    requires 0 <= d < 64
  {
    if d < 26 then ('A' as int + d) as char
    else if d < 52 then ('a' as int + d - 26) as char
    else if d < 62 then ('0' as int + d - 52) as char
    else if d == 62 then '+' else '/'
  }

  // ---- The definition

  /** The four symbols of a group of 24 bits. */
  function Symbols(n: nat): (r: string)
    requires n < 0x1000000
    ensures |r| == 4
  {
    [Symbol(n / 0x40000), Symbol(n / 0x1000 % 64), Symbol(n / 64 % 64), Symbol(n % 64)]
  }

  function Group(x: char, y: char, z: char): nat
    requires Ord(x) < 256 && Ord(y) < 256 && Ord(z) < 256
  {
    Ord(x) * 0x10000 + Ord(y) * 0x100 + Ord(z)
  }

  /** Whole groups, then a last one filled up with zero bits, whose missing symbols are padding. */
  function Encoded(s: string): string
    requires IsBytes(s)
  {
    if s == "" then ""
    else if |s| == 1 then Symbols(Group(s[0], NUL, NUL))[..2] + "=="
    else if |s| == 2 then Symbols(Group(s[0], s[1], NUL))[..3] + "="
    else Symbols(Group(s[0], s[1], s[2])) + Encoded(s[3..])
  }

  // ---- Parts of numbers

  lemma Div4(q: int, r: int)
    requires 0 <= r < 4
    ensures (4 * q + r) / 4 == q && (4 * q + r) % 4 == r
  {}

  lemma Div16(q: int, r: int)
    requires 0 <= r < 16
    ensures (16 * q + r) / 16 == q && (16 * q + r) % 16 == r
  {}

  lemma Div64(q: int, r: int)
    requires 0 <= r < 64
    ensures (64 * q + r) / 64 == q && (64 * q + r) % 64 == r
  {}

  lemma Div4096(q: int, r: int)
    requires 0 <= r < 0x1000
    ensures (0x1000 * q + r) / 0x1000 == q
  {}

  lemma Div262144(q: int, r: int)
    requires 0 <= r < 0x40000
    ensures (0x40000 * q + r) / 0x40000 == q
  {}

  /** The sextets of a group, each put together from the parts of two bytes. */
  lemma Sextets(xh: nat, xl: nat, yh: nat, yl: nat, zh: nat, zl: nat)
    requires xh < 64 && xl < 4 && yh < 16 && yl < 16 && zh < 4 && zl < 64
    ensures var n := (4 * xh + xl) * 0x10000 + (16 * yh + yl) * 0x100 + (64 * zh + zl);
      n / 0x40000 == xh && n / 0x1000 % 64 == xl * 16 + yh && n / 64 % 64 == yl * 4 + zh && n % 64 == zl
  {
    var n := (4 * xh + xl) * 0x10000 + (16 * yh + yl) * 0x100 + (64 * zh + zl);
    var (b, c) := (xl * 16 + yh, yl * 4 + zh);
    assert n == 0x40000 * xh + (0x1000 * b + (64 * c + zl));
    assert n == 0x1000 * (64 * xh + b) + (64 * c + zl);
    assert n == 64 * (64 * (64 * xh + b) + c) + zl;
    Div64(64 * (64 * xh + b) + c, zl);
    Div64(64 * xh + b, c);
    Div4096(64 * xh + b, 64 * c + zl);
    Div64(xh, b);
    Div262144(xh, 0x1000 * b + (64 * c + zl));
  }

  function First(x: char): char {
    Symbol(Ord(x) / 4 % 64)
  }

  function Second(x: char, y: char): char {
    Symbol((Ord(x) % 4 * 16 + Ord(y) / 16) % 64)
  }

  function Third(y: char, z: char): char {
    Symbol((Ord(y) % 16 * 4 + Ord(z) / 64) % 64)
  }

  function Fourth(z: char): char {
    Symbol(Ord(z) % 64)
  }

  lemma GroupSymbols(x: char, y: char, z: char)
    requires Ord(x) < 256 && Ord(y) < 256 && Ord(z) < 256
    ensures Symbols(Group(x, y, z)) == [First(x), Second(x, y), Third(y, z), Fourth(z)]
  {
    var (xh, xl, yh, yl, zh, zl) := (Ord(x) / 4, Ord(x) % 4, Ord(y) / 16, Ord(y) % 16, Ord(z) / 64, Ord(z) % 64);
    Sextets(xh, xl, yh, yl, zh, zl);
    Small(xh);
    Small(xl * 16 + yh);
    Small(yl * 4 + zh);
  }

  lemma Small(d: nat)
    requires d < 64
    ensures d % 64 == d
  {}

  // ---- The accumulator of cpp-httplib

  /** Two's complement with 32 bits. */
  function Wrap32(v: int): int {
    (v + 0x8000_0000) % 0x1_0000_0000 - 0x8000_0000
  }

  function Pow2(k: nat): nat {
    if k == 0 then 1 else 2 * Pow2(k - 1)
  }

  /** `(val >> shift) & 0x3F`, with the arithmetic shift. */
  function Bits(val: int, shift: nat): (d: int)
    ensures 0 <= d < 64
  {
    PowPositive(shift);
    val / Pow2(shift) % 64
  }

  lemma PowPositive(k: nat)
    ensures Pow2(k) > 0
  {}

  /** What the inner loop appends. */
  function Emitted(val: int, valb: int): string
    decreases valb + 6
  {
    if valb < 0 then "" else [Symbol(Bits(val, valb))] + Emitted(val, valb - 6)
  }

  function Left(valb: int): int
    decreases valb + 6
  {
    if valb < 0 then valb else Left(valb - 6)
  }

  method Emit(val: int, valb: int, out: string) returns (valb': int, out': string)
    ensures out' == out + Emitted(val, valb) && valb' == Left(valb)
  {
    valb', out' := valb, out;
    while valb' >= 0
      invariant out' + Emitted(val, valb') == out + Emitted(val, valb) && Left(valb') == Left(valb)
      decreases valb' + 6
    {
      AppendAssociates(out', [Symbol(Bits(val, valb'))], Emitted(val, valb' - 6));
      out' := out' + [Symbol(Bits(val, valb'))];
      valb' := valb' - 6;
    }
    assert out' + "" == out';
  }

  lemma Powers()
    ensures Pow2(0) == 1 && Pow2(2) == 4 && Pow2(4) == 16 && Pow2(6) == 64
  {
    assert Pow2(1) == 2 && Pow2(3) == 8 && Pow2(5) == 32;
  }

  lemma WrapsByMultiples(v: int) returns (k: int)
    ensures Wrap32(v) == v + k * 0x1_0000_0000
  {
    k := -((v + 0x8000_0000) / 0x1_0000_0000);
  }

  /** The accumulator after one more byte. */
  function Shifted(val: int, c: char): int {
    Wrap32(val * 256) + Ord(c)
  }

  /** After the first byte of a group, whatever the higher bits of the accumulator are. */
  lemma FirstByte(val: int, x: char)
    requires Ord(x) < 256
    ensures Emitted(Shifted(val, x), 2) == [First(x)] && Shifted(val, x) % 4 == Ord(x) % 4
  {
    Powers();
    var k := WrapsByMultiples(val * 256);
    var m := val + k * 0x100_0000;
    Div4(64 * m + Ord(x) / 4, Ord(x) % 4);
    Div64(m, Ord(x) / 4);
    assert Emitted(Shifted(val, x), -4) == "";
  }

  lemma SecondByte(val: int, x: char, y: char)
    requires Ord(x) < 256 && Ord(y) < 256 && val % 4 == Ord(x) % 4
    ensures Emitted(Shifted(val, y), 4) == [Second(x, y)] && Shifted(val, y) % 16 == Ord(y) % 16
  {
    Powers();
    var k := WrapsByMultiples(val * 256);
    var (m, l, h) := (val / 4 + k * 0x40_0000, val % 4, Ord(y) / 16);
    Div16(64 * m + (16 * l + h), Ord(y) % 16);
    Div64(m, 16 * l + h);
    assert Emitted(Shifted(val, y), -2) == "";
  }

  lemma ThirdByte(val: int, y: char, z: char)
    requires Ord(y) < 256 && Ord(z) < 256 && val % 16 == Ord(y) % 16
    ensures Emitted(Shifted(val, z), 6) == [Third(y, z), Fourth(z)]
  {
    Powers();
    var v := Shifted(val, z);
    var k := WrapsByMultiples(val * 256);
    var (m, l, h) := (val / 16 + k * 0x10_0000, val % 16, Ord(z) / 64);
    assert val == 16 * (val / 16) + l;
    Div64(64 * m + (4 * l + h), Ord(z) % 64);
    Div64(m, 4 * l + h);
    assert Emitted(v, -6) == "" && Emitted(v, 0) == [Symbol(Bits(v, 0))];
  }

  /**
   How the symbols come from the bytes: each from one byte or two neighbours. Lemmas that only follow
   the order of the symbols take the code as a value, so that the divisions in `First` to `Fourth`
   stay out of their proofs.
   */
  datatype Code = Code(
    first: char -> char,
    second: (char, char) -> char,
    third: (char, char) -> char,
    fourth: char -> char)

  function TheCode(): Code {
    Code(First, Second, Third, Fourth)
  }

  /** The symbols byte by byte. */
  function Spelled(e: Code, s: string): string
    decreases |s|, 0
  {
    if s == "" then "" else [e.first(s[0])] + AfterOne(e, s[0], s[1..])
  }

  /** What is still to be spelled when the first byte of a group is read and `rest` follows. */
  function AfterOne(e: Code, x: char, rest: string): string
    decreases |rest|, 1
  {
    if rest == "" then [e.second(x, NUL)] + "==" else [e.second(x, rest[0])] + AfterTwo(e, rest[0], rest[1..])
  }

  /** The same when two bytes are read; the first no longer matters. */
  function AfterTwo(e: Code, y: char, rest: string): string
    decreases |rest|, 1
  {
    if rest == "" then [e.third(y, NUL)] + "=" else [e.third(y, rest[0]), e.fourth(rest[0])] + Spelled(e, rest[1..])
  }

  /** The same for the bytes `p` of a group. */
  function Missing(e: Code, p: string, rest: string): string
    requires |p| <= 2
  {
    if p == "" then Spelled(e, rest) else if |p| == 1 then AfterOne(e, p[0], rest) else AfterTwo(e, p[1], rest)
  }

  lemma SpelledThree(e: Code, s: string)
    requires |s| >= 3
    ensures (Spelled(e, s)
             == [e.first(s[0]), e.second(s[0], s[1]), e.third(s[1], s[2]), e.fourth(s[2])] + Spelled(e, s[3..]))
  {
    SpelledParts(e, s[0], s[1], s[2], s[3..]);
    assert s == [s[0]] + ([s[1]] + ([s[2]] + s[3..]));
  }

  lemma SpelledParts(e: Code, x: char, y: char, z: char, rest: string)
    ensures (Spelled(e, [x] + ([y] + ([z] + rest)))
             == [e.first(x), e.second(x, y), e.third(y, z), e.fourth(z)] + Spelled(e, rest))
  {
    MissingMore(e, "", x, [y] + ([z] + rest));
    MissingMore(e, [x], y, [z] + rest);
    MissingMore(e, [x, y], z, rest);
  }

  lemma SpelledShort(e: Code, s: string)
    requires 1 <= |s| <= 2
    ensures |s| == 1 ==> Spelled(e, s) == [e.first(s[0]), e.second(s[0], NUL), '=', '=']
    ensures |s| == 2 ==> Spelled(e, s) == [e.first(s[0]), e.second(s[0], s[1]), e.third(s[1], NUL), '=']
  {
    if |s| == 1 {
      MissingMore(e, "", s[0], "");
      assert s == [s[0]] + "";
    } else {
      MissingMore(e, "", s[0], [s[1]]);
      MissingMore(e, [s[0]], s[1], "");
      assert s == [s[0]] + [s[1]] && [s[1]] == [s[1]] + "";
    }
  }

  lemma {:induction false} SpelledLength(e: Code, s: string)
    ensures |Spelled(e, s)| == 4 * ((|s| + 2) / 3)
  {
    if |s| >= 3 {
      SpelledThree(e, s);
      SpelledLength(e, s[3..]);
      assert (|s| + 2) / 3 == 1 + (|s[3..]| + 2) / 3;
    } else if s != "" {
      SpelledShort(e, s);
    }
  }

  /** Spelling byte by byte is the definition by groups. */
  lemma {:induction false} SpelledIsEncoded(e: Code, s: string)
    requires IsBytes(s) && e == TheCode()
    ensures Spelled(e, s) == Encoded(s)
  {
    if s != "" {
      GroupSymbols(s[0], if |s| > 1 then s[1] else NUL, if |s| > 2 then s[2] else NUL);
      if |s| >= 3 {
        SpelledThree(e, s);
        SpelledIsEncoded(e, s[3..]);
      } else {
        SpelledShort(e, s);
      }
    }
  }

  /** The symbols that one more byte settles, when the bytes `p` of its group are read. */
  function Settled(e: Code, p: string, c: char): string
    requires |p| <= 2
  {
    if p == "" then [e.first(c)] else if |p| == 1 then [e.second(p[0], c)] else [e.third(p[1], c), e.fourth(c)]
  }

  function Grown(p: string, c: char): (p': string)
    requires |p| <= 2
    ensures |p'| <= 2
  {
    if |p| == 2 then "" else p + [c]
  }

  lemma MissingMore(e: Code, p: string, c: char, rest: string)
    requires |p| <= 2
    ensures Missing(e, p, [c] + rest) == Settled(e, p, c) + Missing(e, Grown(p, c), rest)
  {
    assert ([c] + rest)[1..] == rest && ([c] + rest)[0] == c;
  }

  /** The accumulator holds what is left of the bytes `p`, and `valb` says how much that is. */
  predicate Holds(val: int, valb: int, p: string) {
    && |p| <= 2 && IsBytes(p) && valb == 2 * |p| - 6
    && (|p| == 1 ==> val % 4 == Ord(p[0]) % 4)
    && (|p| == 2 ==> val % 16 == Ord(p[1]) % 16)
  }

  /** The inner loop appends the symbols that the byte settles. */
  lemma ByteSettles(val: int, valb: int, p: string, c: char)
    requires Holds(val, valb, p) && Ord(c) < 256
    ensures Emitted(Shifted(val, c), valb + 8) == Settled(TheCode(), p, c)
    ensures Holds(Shifted(val, c), Left(valb + 8), Grown(p, c))
  {
    assert Left(0) == -6;
    if p == "" {
      FirstByte(val, c);
    } else if |p| == 1 {
      SecondByte(val, p[0], c);
    } else {
      ThirdByte(val, p[1], c);
    }
  }

  /** One turn of the loop over the input. */
  method AddByte(c: char, val: int, valb: int, out: string, ghost e: Code, ghost p: string, ghost rest: string)
    returns (val': int, valb': int, out': string)
    requires Holds(val, valb, p) && Ord(c) < 256 && e == TheCode()
    ensures Holds(val', valb', Grown(p, c))
    ensures out' + Missing(e, Grown(p, c), rest) == out + Missing(e, p, [c] + rest)
  {
    ByteSettles(val, valb, p, c);
    MissingMore(e, p, c, rest);
    AppendAssociates(out, Settled(e, p, c), Missing(e, Grown(p, c), rest));
    val' := Shifted(val, c);
    valb', out' := Emit(val', valb + 8, out);
  }

  method EncodeBytes(s: string, ghost e: Code) returns (out: string)
    requires IsBytes(s) && e == TheCode()
    ensures out == Spelled(e, s)
  {
    out := "";
    var val, valb := 0, -6;
    ghost var p, all := "", Missing(e, "", s);
    assert s[0..] == s && "" + all == all;
    SpelledLength(e, s);
    for i := 0 to |s|
      invariant Holds(val, valb, p)
      invariant out + Missing(e, p, s[i..]) == all
    {
      assert s[i..] == [s[i]] + s[i + 1..];
      val, valb, out := AddByte(s[i], val, valb, out, e, p, s[i + 1..]);
      p := Grown(p, s[i]);
    }
    assert s[|s|..] == "";
    out := Flush(val, valb, out, e, p);
  }

  /** `base64_encode`: for all its wrapping, the accumulator computes the definition. */
  method Base64Encode(s: string) returns (out: string)
    requires IsBytes(s)
    ensures out == Encoded(s)
  {
    ghost var e := TheCode();
    SpelledIsEncoded(e, s);
    out := EncodeBytes(s, e);
  }

  function Padding(p: string): string {
    if |p| == 1 then "==" else if |p| == 2 then "=" else ""
  }

  /** What follows the loop: the left-over bits and the padding. */
  method Flush(val: int, valb: int, out: string, ghost e: Code, ghost p: string) returns (out': string)
    requires Holds(val, valb, p) && |out + Missing(e, p, "")| % 4 == 0 && e == TheCode()
    ensures out' == out + Missing(e, p, "")
  {
    out' := out;
    if valb > -6 {
      LastSymbol(val, valb, e, p);
      AppendAssociates(out, [Symbol(Bits(Wrap32(val * 256), valb + 8))], Padding(p));
      out' := out + [Symbol(Bits(Wrap32(val * 256), valb + 8))];
    }
    out' := Pad(out', Padding(p));
  }

  /** The symbol for the bits that are left over; behind it there is only padding. */
  lemma LastSymbol(val: int, valb: int, e: Code, p: string)
    requires Holds(val, valb, p) && p != "" && e == TheCode()
    ensures Missing(e, p, "") == [Symbol(Bits(Wrap32(val * 256), valb + 8))] + Padding(p)
  {
    ByteSettles(val, valb, p, NUL);
    FirstEmitted(Shifted(val, NUL), valb + 8);
    assert Settled(e, p, NUL)[0] == Missing(e, p, "")[0];
    assert Missing(e, p, "") == [Missing(e, p, "")[0]] + Padding(p);
  }

  lemma FirstEmitted(val: int, valb: nat)
    ensures Emitted(val, valb) != "" && Emitted(val, valb)[0] == Symbol(Bits(val, valb))
  {}

  method Pad(out: string, ghost padding: string) returns (out': string)
    requires padding in {"", "=", "=="} && |out + padding| % 4 == 0
    ensures out' == out + padding
  {
    out' := out;
    ghost var left := padding;
    assert out + "" == out;
    while |out'| % 4 != 0
      invariant left in {"", "=", "=="} && out' + left == out + padding
      decreases |left|
    {
      out' := out' + "=";
      left := left[1..];
    }
    assert out' + "" == out';
  }
}
