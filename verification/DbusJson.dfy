/** The JSON that the plugin prints for D-Bus values, and what a JSON reader makes of it. */
module DbusJson {
  import opened Numerals
  import opened Text
  import opened Json
  import opened DbusValues
  import opened DbusMarshal

  // ---- Printing

  function Digit(n: nat): char
    requires n < 10
  {
    (n + '0' as int) as char
  }

  function NatText(n: nat): string {
    if n < 10 then [Digit(n)] else NatText(n / 10) + [Digit(n % 10)]
  }

  /** `std::to_string`. */
  function IntText(n: int): string {
    if n < 0 then ['-'] + NatText(-n) else NatText(n)
  }

  function EscapeChar(c: char): string {
    if c == '\\' then "\\\\"
    else if c == '"' then "\\\""
    else if c == '\n' then "\\n"
    else if c == '\r' then "\\r"
    else if c == '\t' then "\\t"
    else if c < ' ' then ['\\', 'u', '0', '0', HexDigit(c as int / 16), HexDigit(c as int % 16)]
    else [c]
  }

  function Escape(s: string): string {
    if s == "" then "" else EscapeChar(s[0]) + Escape(s[1..])
  }

  /** A C string between quotation marks. */
  function Quoted(s: string): string {
    ['"'] + (Escape(CStr(s)) + ['"'])
  }

  /** `dbus_basic_to_string`: empty for everything that is not basic. */
  function BasicText(d: Value): string {
    match d
    case IntValue(_, n) => IntText(n)
    case BoolValue(b) => if b then "true" else "false"
    case TextValue(_, text) => CStr(text)
    case _ => ""
  }

  function Print(d: Value): string
    decreases d, 1
  {
    match d
    case IntValue(_, n) => IntText(n)
    case BoolValue(b) => if b then "true" else "false"
    case TextValue(_, text) => Quoted(text)
    case VariantValue(_, inner) => Print(inner)
    case ArrayValue(elem, items) =>
      if elem.Entry? then ['{'] + (PrintEntries(items, true) + ['}']) else ['['] + (PrintItems(items, true) + [']'])
    case StructValue(fields) => ['['] + (PrintItems(fields, true) + [']'])
    case EntryValue(_, _) => "null"
  }

  function Comma(first: bool): string {
    if first then "" else ","
  }

  function PrintItems(items: seq<Value>, first: bool): string
    decreases items, 0
  {
    if items == [] then "" else Comma(first) + (Print(items[0]) + PrintItems(items[1..], false))
  }

  function PrintEntry(d: Value): string
    requires d.EntryValue?
    decreases d, 0
  {
    Quoted(BasicText(d.key)) + ([':'] + Print(d.value))
  }

  /** The loop over a dictionary ends at the first element that is not an entry. */
  function PrintEntries(items: seq<Value>, first: bool): string
    decreases items, 0
  {
    if items == [] || !items[0].EntryValue? then ""
    else Comma(first) + (PrintEntry(items[0]) + PrintEntries(items[1..], false))
  }

  /** The branches of the switch over a character. */
  method EscapedChar(ch: char) returns (text: string)
    ensures text == EscapeChar(ch)
  {
    text := [ch];
    if ch == '\\' { text := "\\\\"; }
    else if ch == '"' { text := "\\\""; }
    else if ch == '\n' { text := "\\n"; }
    else if ch == '\r' { text := "\\r"; }
    else if ch == '\t' { text := "\\t"; }
    else if ch < ' ' { text := ['\\', 'u', '0', '0', HexDigit(ch as int / 16), HexDigit(ch as int % 16)]; }
  }

  lemma EscapeNext(s: string, p: nat)
    requires p < |s| && s[p] != '\0'
    ensures Escape(CStr(s[p..])) == EscapeChar(s[p]) + Escape(CStr(s[p + 1..]))
  {
    assert s[p..][1..] == s[p + 1..];
    assert CStr(s[p..])[1..] == CStr(s[p + 1..]);
  }

  method AppendEscaped(out: string, s: string) returns (r: string)
    ensures r == out + Quoted(s)
  {
    r := out + ['"'];
    var p := 0;
    ghost var start := r;
    ghost var done := "";
    while p < |s| && s[p] != '\0'
      invariant p <= |s| && r == start + done
      invariant done + Escape(CStr(s[p..])) == Escape(CStr(s))
    {
      var text := EscapedChar(s[p]);
      EscapeNext(s, p);
      AppendAssociates(done, text, Escape(CStr(s[p + 1..])));
      AppendAssociates(start, done, text);
      done := done + text;
      r := r + text;
      p := p + 1;
    }
    assert done + "" == done;
    AppendThree(out, ['"'], done, ['"']);
    AppendAssociates(['"'], done, ['"']);
    AppendAssociates(out, ['"'], done + ['"']);
    AppendAssociates(start, done, ['"']);
    r := r + ['"'];
  }

  method AppendValueJson(out: string, d: Value) returns (r: string)
    ensures r == out + Print(d)
    decreases d, 3
  {
    match d
    case ArrayValue(elem, items) =>
      if elem.Entry? {
        r := AppendEntries(out + ['{'], items);
        AppendThree(out, ['{'], PrintEntries(items, true), ['}']);
        AppendAssociates(['{'], PrintEntries(items, true), ['}']);
        AppendAssociates(out + ['{'], PrintEntries(items, true), ['}']);
        r := r + ['}'];
      } else {
        r := AppendItems(out, items);
      }
    case StructValue(fields) => r := AppendItems(out, fields);
    case VariantValue(_, inner) => r := AppendValueJson(out, inner);
    case TextValue(_, text) => r := AppendEscaped(out, text);
    case _ =>
      var s := BasicText(d);
      if s != "" { r := out + s; } else { r := out + "null"; }
      BasicNotEmpty(d);
  }

  lemma BasicNotEmpty(d: Value)
    requires !d.TextValue?
    ensures BasicText(d) == "" <==> !(d.IntValue? || d.BoolValue?)
  {
    if d.IntValue? { assert IntText(d.n) != ""; }
  }

  lemma AppendStep(start: string, done: string, comma: string, text: string, rest: string)
    ensures start + done + comma + text == start + (done + comma + text)
    ensures done + (comma + (text + rest)) == done + comma + text + rest
  {
    AppendAssociates(start, done, comma);
    AppendAssociates(start, done + comma, text);
    AppendAssociates(done, comma, text + rest);
    AppendAssociates(done + comma, text, rest);
  }

  method AppendItems(out: string, items: seq<Value>) returns (r: string)
    ensures r == out + (['['] + (PrintItems(items, true) + [']']))
    decreases items, 2
  {
    r := out + ['['];
    ghost var start, done := r, "";
    var first := true;
    var i := 0;
    assert items[0..] == items;
    while i < |items|
      invariant i <= |items| && r == start + done
      invariant done + PrintItems(items[i..], first) == PrintItems(items, true)
    {
      assert items[i..][1..] == items[i + 1..];
      ghost var comma, text, rest := Comma(first), Print(items[i]), PrintItems(items[i + 1..], false);
      if !first { r := r + [',']; }
      first := false;
      r := AppendValueJson(r, items[i]);
      AppendStep(start, done, comma, text, rest);
      done := done + comma + text;
      i := i + 1;
    }
    assert done + "" == done;
    AppendAssociates(out, ['['], done + [']']);
    AppendAssociates(start, done, [']']);
    r := r + [']'];
  }

  method AppendEntryJson(out: string, d: Value) returns (r: string)
    requires d.EntryValue?
    ensures r == out + PrintEntry(d)
    decreases d, 0
  {
    var key := BasicText(d.key);
    r := AppendEscaped(out, key);
    r := r + [':'];
    r := AppendValueJson(r, d.value);
    AppendAssociates(out, Quoted(key), [':'] + Print(d.value));
    AppendAssociates(out + Quoted(key), [':'], Print(d.value));
  }

  lemma EntriesStep(items: seq<Value>, i: nat, first: bool)
    requires i < |items| && items[i].EntryValue?
    ensures PrintEntries(items[i..], first)
         == Comma(first) + (PrintEntry(items[i]) + PrintEntries(items[i + 1..], false))
  {
    assert items[i..][1..] == items[i + 1..];
  }

  lemma EntriesEnd(items: seq<Value>, i: nat, first: bool)
    requires i <= |items| && (i < |items| ==> !items[i].EntryValue?)
    ensures PrintEntries(items[i..], first) == ""
  {}

  method AppendEntries(out: string, items: seq<Value>) returns (r: string)
    ensures r == out + PrintEntries(items, true)
    decreases items, 2
  {
    r := out;
    ghost var done, rest, all := "", PrintEntries(items, true), PrintEntries(items, true);
    var first := true;
    var i := 0;
    assert items[0..] == items;
    while i < |items| && items[i].EntryValue?
      invariant i <= |items| && r == out + done
      invariant rest == PrintEntries(items[i..], first) && done + rest == all
    {
      ghost var before := r;
      EntriesStep(items, i, first);
      rest := PrintEntries(items[i + 1..], false);
      ghost var comma, text := Comma(first), PrintEntry(items[i]);
      AppendStep(out, done, comma, text, rest);
      if !first { r := r + [',']; }
      assert r == before + comma;
      first := false;
      r := AppendEntryJson(r, items[i]);
      done := done + comma + text;
      i := i + 1;
    }
    EntriesEnd(items, i, first);
  }

  /** `argsJson` of `decode_signal`: all arguments of a message. */
  function PrintArgs(args: seq<Value>): string {
    ['['] + (PrintItems(args, true) + [']'])
  }

  method ArgsJson(args: seq<Value>) returns (r: string)
    ensures r == PrintArgs(args)
  {
    r := AppendItems("", args);
  }
}
