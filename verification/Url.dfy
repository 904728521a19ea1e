/** Percent coding: `encode_query_param` and `decode_url`. */
module Url {
  import opened Numerals
  import opened Text

  predicate IsAlnum(c: char) {
    'a' <= c <= 'z' || 'A' <= c <= 'Z' || '0' <= c <= '9'
  }

  /** The bytes that `encode_query_param` copies unchanged. */
  predicate IsUnreserved(c: char) {
    || IsAlnum(c)
    || c == '-' || c == '_' || c == '.' || c == '!' || c == '~'
    || c == '*' || c == '\'' || c == '(' || c == ')'
  }

  /** The value of the first `count` hexadecimal digits of `s`, when `s` starts with that many. */
  function HexValue(s: string, count: nat, acc: nat): Option<nat>
    decreases count
  {
    if count == 0 then Some(acc)
    else if s == "" || HexVal(s[0]) < 0 then None
    else HexValue(s[1..], count - 1, acc * 16 + HexVal(s[0]))
  }

  lemma HexValueBound(s: string, count: nat, acc: nat)
    requires HexValue(s, count, acc).Some?
    ensures count <= |s|
    ensures count == 2 && acc == 0 ==> HexValue(s, count, acc).value < 256
    ensures count == 4 && acc == 0 ==> HexValue(s, count, acc).value < 0x10000
  {
    if count > 0 { HexValueBound(s[1..], count - 1, acc * 16 + HexVal(s[0])); }
  }

  function Byte(n: int): char
    requires 0 <= n < 256
  {
    n as char
  }

  /** The UTF-8 form of a code unit below 0x10000; surrogates have none. */
  function ToUtf8(code: nat): string
    requires code < 0x10000
  {
    if code < 0x80 then [Byte(code)]
    else if code < 0x800 then [Byte(0xC0 + code / 64), Byte(0x80 + code % 64)]
    else if 0xD800 <= code < 0xE000 then ""
    else [Byte(0xE0 + code / 4096), Byte(0x80 + code / 64 % 64), Byte(0x80 + code % 64)]
  }

  function EncodeByte(c: char): string
    requires c as int < 256
  {
    if IsUnreserved(c) then [c]
    else ['%', UpperHexDigit(c as int / 16), UpperHexDigit(c as int % 16)]
  }

  function Encode(s: string): string
    requires IsBytes(s)
  {
    if s == "" then "" else EncodeByte(s[0]) + Encode(s[1..])
  }

  /** One step of the decoder: the bytes it emits and how many input bytes it used. */
  function DecodeStep(s: string, plusIsSpace: bool): (r: (string, nat))
    requires s != ""
    ensures 1 <= r.1 <= |s|
  {
    if s[0] == '%' && 1 < |s| then
      if s[1] == 'u' then
        var v := HexValue(s[2..], 4, 0);
        if v.Some? then HexValueBound(s[2..], 4, 0); (ToUtf8(v.value), 6) else ("%", 1)
      else
        var v := HexValue(s[1..], 2, 0);
        if v.Some? then HexValueBound(s[1..], 2, 0); ([Byte(v.value)], 3) else ("%", 1)
    else if plusIsSpace && s[0] == '+' then (" ", 1)
    else ([s[0]], 1)
  }

  function Decode(s: string, plusIsSpace: bool): string
    decreases |s|
  {
    if s == "" then ""
    else
      var (out, used) := DecodeStep(s, plusIsSpace);
      out + Decode(s[used..], plusIsSpace)
  }

  lemma DecodeUnfolds(s: string, i: nat, plusIsSpace: bool)
    requires i < |s|
    ensures s[i..][1..] == s[i + 1..] && (i + 1 < |s| ==> s[i..][2..] == s[i + 2..])
    ensures var used := DecodeStep(s[i..], plusIsSpace).1;
            Decode(s[i..], plusIsSpace) == DecodeStep(s[i..], plusIsSpace).0 + Decode(s[i + used..], plusIsSpace)
  {
    var used := DecodeStep(s[i..], plusIsSpace).1;
    assert s[i..][used..] == s[i + used..];
  }

  method EncodeQueryParam(value: string) returns (escaped: string)
    requires IsBytes(value)
    ensures escaped == Encode(value)
  {
    escaped := "";
    for i := 0 to |value|
      invariant escaped + Encode(value[i..]) == Encode(value)
    {
      var c := value[i];
      assert value[i..][1..] == value[i + 1..];
      var unit := [c];
      if !IsUnreserved(c) {
        unit := ['%', UpperHexDigit(c as int / 16), UpperHexDigit(c as int % 16)];
      }
      AppendAssociates(escaped, unit, Encode(value[i + 1..]));
      escaped := escaped + unit;
    }
  }

  method FromHexToInt(s: string, start: nat, count: nat) returns (val: Option<nat>)
    requires 0 < count
    ensures val == if start <= |s| then HexValue(s[start..], count, 0) else None
  {
    if start >= |s| { return None; }
    var i, left, acc: nat := start, count, 0;
    while left > 0
      invariant start <= i <= |s|
      invariant HexValue(s[i..], left, acc) == HexValue(s[start..], count, 0)
    {
      // Reading one past the end yields the terminating NUL, which is not a digit.
      if i == |s| { return None; }
      var v := HexVal(s[i]);
      if v < 0 { return None; }
      assert s[i..][1..] == s[i + 1..];
      acc, i, left := acc * 16 + v, i + 1, left - 1;
    }
    return Some(acc);
  }

  /** The body of the decoding loop at position `i`. */
  method DecodeAt(s: string, i: nat, plusIsSpace: bool) returns (out: string, next: nat)
    requires i < |s|
    ensures i < next <= |s|
    ensures Decode(s[i..], plusIsSpace) == out + Decode(s[next..], plusIsSpace)
  {
    DecodeUnfolds(s, i, plusIsSpace);
    next := i + 1;
    out := [s[i]];
    if s[i] == '%' && i + 1 < |s| {
      if s[i + 1] == 'u' {
        var val := FromHexToInt(s, i + 2, 4);
        if val.Some? {
          HexValueBound(s[i + 2..], 4, 0);
          out, next := ToUtf8(val.value), i + 6;
        }
      } else {
        var val := FromHexToInt(s, i + 1, 2);
        if val.Some? {
          HexValueBound(s[i + 1..], 2, 0);
          out, next := [Byte(val.value)], i + 3;
        }
      }
    } else if plusIsSpace && s[i] == '+' {
      out := " ";
    }
  }

  method DecodeUrl(s: string, plusIsSpace: bool) returns (result: string)
    ensures result == Decode(s, plusIsSpace)
  {
    result := "";
    var i := 0;
    while i < |s|
      invariant 0 <= i <= |s|
      invariant result + Decode(s[i..], plusIsSpace) == Decode(s, plusIsSpace)
    {
      var out, next := DecodeAt(s, i, plusIsSpace);
      AppendAssociates(result, out, Decode(s[next..], plusIsSpace));
      result, i := result + out, next;
    }
  }

  lemma HexOfUpper(n: nat)
    requires n < 16
    ensures HexVal(UpperHexDigit(n)) == n && UpperHexDigit(n) != 'u'
  {}

  lemma TwoDigits(h: char, l: char, rest: string)
    requires HexVal(h) >= 0 && HexVal(l) >= 0
    ensures HexValue([h, l] + rest, 2, 0) == Some(HexVal(h) * 16 + HexVal(l))
  {
    assert ([h, l] + rest)[1..] == [l] + rest;
    assert HexValue([l] + rest, 1, HexVal(h)) == HexValue(([l] + rest)[1..], 0, HexVal(h) * 16 + HexVal(l));
  }

  lemma EncodedByteDecodes(c: char, rest: string, plusIsSpace: bool)
    requires c as int < 256
    ensures DecodeStep(EncodeByte(c) + rest, plusIsSpace) == ([c], |EncodeByte(c)|)
  {
    if !IsUnreserved(c) {
      var h, l := UpperHexDigit(c as int / 16), UpperHexDigit(c as int % 16);
      HexOfUpper(c as int / 16);
      HexOfUpper(c as int % 16);
      assert (['%', h, l] + rest)[1..] == [h, l] + rest;
      TwoDigits(h, l, rest);
    }
  }

  /** Decoding undoes encoding, whatever the treatment of `+`. */
  lemma {:induction false} DecodeEncode(value: string, plusIsSpace: bool)
    requires IsBytes(value)
    ensures Decode(Encode(value), plusIsSpace) == value
  {
    if value != "" {
      var head, tail := EncodeByte(value[0]), Encode(value[1..]);
      EncodedByteDecodes(value[0], tail, plusIsSpace);
      assert (head + tail)[|head|..] == tail;
      DecodeEncode(value[1..], plusIsSpace);
      assert value == [value[0]] + value[1..];
    }
  }

  /** Decoding never makes a text longer. */
  lemma {:induction false} DecodeShrinks(s: string, plusIsSpace: bool)
    ensures |Decode(s, plusIsSpace)| <= |s|
    decreases |s|
  {
    if s != "" { DecodeShrinks(s[DecodeStep(s, plusIsSpace).1..], plusIsSpace); }
  }

  /** Encoded text consists of unreserved bytes and percent triplets only. */
  lemma {:induction false} EncodeAlphabet(value: string)
    requires IsBytes(value)
    ensures forall c :: c in Encode(value) ==> IsUnreserved(c) || c == '%'
  {
    if value != "" {
      EncodeAlphabet(value[1..]);
      assert IsUnreserved(UpperHexDigit(value[0] as int / 16)) && IsUnreserved(UpperHexDigit(value[0] as int % 16));
    }
  }
}
