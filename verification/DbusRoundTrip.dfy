/** From script values through a D-Bus message to JSON and back. */
module DbusRoundTrip {
  import opened Numerals
  import opened Text
  import opened Json
  import opened DbusValues
  import opened DbusMarshal
  import opened DbusJson

  // ---- What a JSON reader sees in the printed text

  lemma {:induction false} NatTextDigits(n: nat, rest: string)
    ensures Digits(NatText(n) + rest, 0) == Digits(rest, n)
  {
    if n < 10 {
      assert (NatText(n) + rest)[1..] == rest;
    } else {
      var last := [Digit(n % 10)] + rest;
      AppendAssociates(NatText(n / 10), [Digit(n % 10)], rest);
      NatTextDigits(n / 10, last);
      assert last[1..] == rest;
    }
  }

  lemma {:induction false} NatTextStart(n: nat)
    ensures NatText(n) != "" && IsDigit(NatText(n)[0]) && (NatText(n)[0] == '0' ==> n == 0)
  {
    if n >= 10 { NatTextStart(n / 10); }
  }

  lemma NatTextParses(n: nat, rest: string)
    requires EndsNumber(rest)
    ensures ParseNat(NatText(n) + rest) == Some((n, rest))
  {
    var s := NatText(n) + rest;
    NatTextStart(n);
    assert s[0] == NatText(n)[0];
    if n == 0 {
      assert s[1..] == rest;
    } else {
      NatTextDigits(n, rest);
      assert Digits(s, 0) == Digits(s[1..], s[0] as int - '0' as int);
    }
  }

  lemma IntTextParses(n: int, rest: string)
    requires EndsNumber(rest)
    ensures ParseValue(IntText(n) + rest) == Some((JNumber(n), rest))
  {
    var s := IntText(n) + rest;
    var m: nat := if n < 0 then -n else n;
    NatTextStart(m);
    NatTextParses(m, rest);
    if n < 0 {
      AppendAssociates(['-'], NatText(m), rest);
      assert s[1..] == NatText(m) + rest;
    } else {
      assert s[0] == NatText(m)[0];
    }
  }

  lemma UnitParses(n: nat, rest: string)
    requires n < 32
    ensures ParseEscape(['u', '0', '0', HexDigit(n / 16), HexDigit(n % 16)] + rest) == Some((n as char, rest))
  {
    var h, l := HexDigit(n / 16), HexDigit(n % 16);
    var e := ['u', '0', '0', h, l] + rest;
    assert e[1..] == ['0', '0', h, l] + rest;
    assert e[1..][4..] == rest;
    assert HexVal('0') == 0 && HexVal(h) == n / 16 && HexVal(l) == n % 16;
  }

  lemma LetterParses(c: char, letter: char, rest: string)
    requires ParseEscape([letter]) == Some((c, "")) && letter != 'u'
    ensures ParseEscape([letter] + rest) == Some((c, rest))
  {
    assert ([letter] + rest)[1..] == rest;
  }

  lemma EscapeCharParses(c: char, rest: string)
    requires EscapeChar(c) != [c]
    ensures EscapeChar(c)[0] == '\\' && ParseEscape(EscapeChar(c)[1..] + rest) == Some((c, rest))
  {
    var e := EscapeChar(c)[1..];
    if c < ' ' && c != '\n' && c != '\r' && c != '\t' {
      assert e == ['u', '0', '0', HexDigit(c as int / 16), HexDigit(c as int % 16)];
      UnitParses(c as int, rest);
    } else {
      assert e == [EscapeChar(c)[1]];
      LetterParses(c, e[0], rest);
    }
  }

  lemma EscapedFirst(c: char, more: string)
    ensures var r := ParseString(EscapeChar(c) + more);
            r == if ParseString(more) == None then None
                 else Some(([c] + ParseString(more).value.0, ParseString(more).value.1))
  {
    var e := EscapeChar(c);
    if e == [c] {
      assert (e + more)[1..] == more;
    } else {
      EscapeCharParses(c, more);
      assert (e + more)[1..] == e[1..] + more;
    }
  }

  lemma {:induction false} EscapeParses(s: string, rest: string)
    ensures ParseString(Escape(s) + (['"'] + rest)) == Some((s, rest))
  {
    var tail := ['"'] + rest;
    if s == "" {
      assert "" + tail == tail && tail[1..] == rest;
    } else {
      AppendAssociates(EscapeChar(s[0]), Escape(s[1..]), tail);
      EscapeParses(s[1..], rest);
      EscapedFirst(s[0], Escape(s[1..]) + tail);
      assert s == [s[0]] + s[1..];
    }
  }

  lemma QuotedParses(s: string, rest: string)
    ensures var t := Quoted(s) + rest; t[0] == '"' && ParseString(t[1..]) == Some((CStr(s), rest))
  {
    var e := Escape(CStr(s));
    assert (Quoted(s) + rest)[1..] == e + ['"'] + rest;
    AppendAssociates(e, ['"'], rest);
    EscapeParses(CStr(s), rest);
  }

  // ---- Values

  /** A D-Bus value as JSON: variants are unwrapped, structs are arrays. */
  function Plain(d: Value): Json
    decreases d, 1
  {
    match d
    case IntValue(_, n) => JNumber(n)
    case BoolValue(b) => JBool(b)
    case TextValue(_, text) => JString(CStr(text))
    case VariantValue(_, inner) => Plain(inner)
    case ArrayValue(elem, items) => if elem.Entry? then JObject(PlainEntries(items)) else JArray(PlainItems(items))
    case StructValue(fields) => JArray(PlainItems(fields))
    case EntryValue(_, _) => JNull
  }

  function PlainItems(items: seq<Value>): seq<Json>
    decreases items, 0
  {
    if items == [] then [] else [Plain(items[0])] + PlainItems(items[1..])
  }

  function PlainEntries(items: seq<Value>): seq<(string, Json)>
    decreases items, 0
  {
    if items == [] || !items[0].EntryValue? then []
    else [PlainEntry(items[0])] + PlainEntries(items[1..])
  }

  function PlainEntry(d: Value): (string, Json)
    requires d.EntryValue?
    decreases d, 0
  {
    (CStr(BasicText(d.key)), Plain(d.value))
  }

  /** Dictionaries hold entries, and entries occur nowhere else. */
  ghost predicate Regular(d: Value)
    decreases d, 1
  {
    match d
    case VariantValue(_, inner) => Regular(inner)
    case ArrayValue(elem, items) => RegularItems(items, elem.Entry?)
    case StructValue(fields) => RegularItems(fields, false)
    case EntryValue(_, _) => false
    case _ => true
  }

  ghost predicate RegularItems(items: seq<Value>, entries: bool)
    decreases items, 0
  {
    items != [] ==>
      && (if entries then RegularEntry(items[0]) else Regular(items[0]))
      && RegularItems(items[1..], entries)
  }

  ghost predicate RegularEntry(d: Value)
    decreases d, 0
  {
    d.EntryValue? && Regular(d.value)
  }

  /** A value can be followed by these. */
  predicate EndsValue(s: string) {
    s == "" || s[0] == ',' || s[0] == ']' || s[0] == '}'
  }

  lemma {:induction false} PrintParses(d: Value, rest: string)
    requires Regular(d) && EndsValue(rest)
    ensures ParseValue(Print(d) + rest) == Some((Plain(d), rest))
    decreases d, 1
  {
    match d
    case IntValue(_, n) => IntTextParses(n, rest);
    case BoolValue(b) =>
      var t := Print(d) + rest;
      assert t[..|Print(d)|] == Print(d) && t[|Print(d)|..] == rest;
    case TextValue(_, text) => QuotedParses(text, rest);
    case VariantValue(_, inner) => PrintParses(inner, rest);
    case ArrayValue(elem, items) =>
      if elem.Entry? {
        BracedParses(items, rest);
      } else {
        BracketedParses(items, rest);
      }
    case StructValue(fields) => BracketedParses(fields, rest);
  }

  /** A printed value starts with neither whitespace nor a closing bracket. */
  lemma {:induction false} PrintStart(d: Value)
    requires Regular(d)
    ensures Print(d) != "" && !IsWs(Print(d)[0]) && Print(d)[0] != ']' && Print(d)[0] != '}'
    decreases d
  {
    match d
    case IntValue(_, n) => NatTextStart(if n < 0 then -n else n);
    case VariantValue(_, inner) => PrintStart(inner);
    case _ =>
  }

  lemma CommaFirst(items: seq<Value>, tail: string)
    requires items != []
    ensures PrintItems(items, false) + tail == [','] + (PrintItems(items, true) + tail)
  {
    var more := Print(items[0]) + PrintItems(items[1..], false);
    assert "" + more == more;
    AppendAssociates([','], more, tail);
  }

  lemma {:induction false} ElementsParse(items: seq<Value>, rest: string)
    requires items != [] && RegularItems(items, false)
    ensures ParseElements(PrintItems(items, true) + ([']'] + rest)) == Some((PlainItems(items), rest))
    decreases items, 2
  {
    var more, end := items[1..], [']'] + rest;
    var tail := PrintItems(more, false) + end;
    var text := Print(items[0]);
    assert "" + (text + PrintItems(more, false)) == text + PrintItems(more, false);
    AppendAssociates(text, PrintItems(more, false), end);
    if more == [] {
      assert "" + end == end && end[1..] == rest;
      PrintParses(items[0], tail);
      assert [Plain(items[0])] + [] == [Plain(items[0])];
    } else {
      CommaFirst(more, end);
      PrintParses(items[0], tail);
      assert tail[1..] == PrintItems(more, true) + end;
      ElementsParse(more, rest);
    }
  }

  lemma NoWs(c: char, rest: string)
    requires !IsWs(c)
    ensures SkipWs([c] + rest) == [c] + rest
  {
    assert ([c] + rest)[0] == c;
  }

  lemma {:induction false} BracketedParses(items: seq<Value>, rest: string)
    requires RegularItems(items, false) && EndsValue(rest)
    ensures ParseValue(['['] + (PrintItems(items, true) + [']']) + rest) == Some((JArray(PlainItems(items)), rest))
    decreases items, 3
  {
    var inner, end := PrintItems(items, true), [']'] + rest;
    var t := ['['] + (inner + [']']) + rest;
    AppendAssociates(inner, [']'], rest);
    AppendAssociates(['['], inner + [']'], rest);
    assert t[1..] == inner + end;
    if items == [] {
      NoWs(']', rest);
      assert t[1..] == end && end[1..] == rest;
    } else {
      PrintStart(items[0]);
      assert (inner + end)[0] == Print(items[0])[0];
      ElementsParse(items, rest);
    }
  }

  lemma CommaFirstEntry(items: seq<Value>, tail: string)
    requires items != [] && items[0].EntryValue?
    ensures PrintEntries(items, false) + tail == [','] + (PrintEntries(items, true) + tail)
  {
    var more := PrintEntry(items[0]) + PrintEntries(items[1..], false);
    assert "" + more == more;
    AppendAssociates([','], more, tail);
  }

  lemma {:induction false} MemberParses(d: Value, rest: string)
    requires RegularEntry(d) && EndsValue(rest)
    ensures ParseMember(PrintEntry(d) + rest) == Some((PlainEntry(d), rest))
    decreases d, 0
  {
    var key, text := BasicText(d.key), Print(d.value);
    var behind := [':'] + (text + rest);
    AppendAssociates([':'], text, rest);
    AppendAssociates(Quoted(key), [':'] + text, rest);
    QuotedParses(key, behind);
    assert behind[1..] == text + rest;
    PrintParses(d.value, rest);
  }

  /** One member and what follows it, as `ParseMembers` takes them. */
  lemma FirstMember(d: Value, tail: string)
    requires RegularEntry(d) && tail != "" && (tail[0] == ',' || tail[0] == '}')
    ensures ParseMembers(PrintEntry(d) + tail) == (
              if tail[0] == '}' then Some(([PlainEntry(d)], tail[1..]))
              else if ParseMembers(tail[1..]) == None then None
              else Some(([PlainEntry(d)] + ParseMembers(tail[1..]).value.0, ParseMembers(tail[1..]).value.1)))
    decreases d, 1
  {
    MemberParses(d, tail);
  }

  lemma {:induction false} MembersParse(items: seq<Value>, rest: string)
    requires items != [] && RegularItems(items, true)
    ensures ParseMembers(PrintEntries(items, true) + (['}'] + rest)) == Some((PlainEntries(items), rest))
    decreases items, 2
  {
    var more, end := items[1..], ['}'] + rest;
    var tail := PrintEntries(more, false) + end;
    var text := PrintEntry(items[0]);
    assert RegularEntry(items[0]) && RegularItems(more, true);
    assert "" + (text + PrintEntries(more, false)) == text + PrintEntries(more, false);
    AppendAssociates(text, PrintEntries(more, false), end);
    if more == [] {
      assert tail == end && end[1..] == rest;
      FirstMember(items[0], tail);
      assert PlainEntries(items) == [PlainEntry(items[0])];
    } else {
      assert RegularEntry(more[0]);
      CommaFirstEntry(more, end);
      assert tail[1..] == PrintEntries(more, true) + end;
      MembersParse(more, rest);
      FirstMember(items[0], tail);
    }
  }

  lemma EntriesStart(items: seq<Value>, tail: string)
    requires items != [] && items[0].EntryValue?
    ensures var t := PrintEntries(items, true) + tail; t != "" && t[0] == '"'
  {
    var first, more := PrintEntry(items[0]), PrintEntries(items[1..], false);
    assert "" + (first + more) == first + more && first[0] == '"';
  }

  /** An object starts with its brace; what follows decides. */
  lemma ObjectParses(inner: string, rest: string, members: seq<(string, Json)>)
    requires SkipWs(inner) == inner && inner != ""
    requires if inner[0] == '}' then members == [] && inner[1..] == rest
             else ParseMembers(inner) == Some((members, rest))
    ensures ParseValue(['{'] + inner) == Some((JObject(members), rest))
  {
    NoWs('{', inner);
    assert (['{'] + inner)[1..] == inner;
  }

  lemma {:induction false} BracedParses(items: seq<Value>, rest: string)
    requires RegularItems(items, true) && EndsValue(rest)
    ensures ParseValue(['{'] + (PrintEntries(items, true) + ['}']) + rest) == Some((JObject(PlainEntries(items)), rest))
    decreases items, 3
  {
    var inner, end := PrintEntries(items, true), ['}'] + rest;
    AppendAssociates(inner, ['}'], rest);
    AppendAssociates(['{'], inner + ['}'], rest);
    if items == [] {
      NoWs('}', rest);
      assert inner + end == end && end[1..] == rest;
      ObjectParses(end, rest, []);
    } else {
      assert RegularEntry(items[0]);
      EntriesStart(items, end);
      MembersParse(items, rest);
      ObjectParses(inner + end, rest, PlainEntries(items));
    }
  }

  // ---- What the script passed in

  /** The script value that `ty` selects, without variant tags and with C strings for strings. */
  function Stripped(lib: Lib, ty: Type, v: Js): Json
    requires Sane(lib)
    decreases Rank(v), if ty.Variant? then 1 else 0, 0
  {
    match ty
    case Basic(code) =>
      (match v
       case Bool(b) => JBool(b)
       case Number(n) => JNumber(n)
       case Str(s) => JString(CStr(s))
       case _ => JNull)
    case Variant =>
      var types := lib.readSignature(InnerSignature(v));
      if types == None || |types.value| != 1 then JNull
      else
        PayloadRank(v);
        if Tag(v).Str? then Stripped(lib, types.value[0], Payload(v))
        else InferredIsNotVariant(lib, v); Stripped(lib, types.value[0], v)
    case Array(elem) =>
      if elem.Entry? then (if v.Obj? then JObject(StrippedProps(lib, elem.value, v.props)) else JNull)
      else if v.Arr? then JArray(StrippedItems(lib, Copies(elem, |v.items|), v.items)) else JNull
    case Struct(fields) =>
      if v.Arr? && |v.items| == |fields| then JArray(StrippedItems(lib, fields, v.items)) else JNull
    case Entry(_, _) => JNull
  }

  function StrippedItems(lib: Lib, types: seq<Type>, items: seq<Js>): seq<Json>
    requires Sane(lib) && |types| == |items|
    decreases RankAll(items), 0, 0
  {
    if items == [] then []
    else [Stripped(lib, types[0], items[0])] + StrippedItems(lib, types[1..], items[1..])
  }

  function StrippedProps(lib: Lib, value: Type, props: seq<Prop>): seq<(string, Json)>
    requires Sane(lib)
    decreases RankProps(props), 0, 0
  {
    if props == [] then []
    else [(CStr(props[0].name), Stripped(lib, value, props[0].value))] + StrippedProps(lib, value, props[1..])
  }

  /** What the marshaller appends is the script value with the tags stripped. */
  lemma {:induction false} MarshalStrips(lib: Lib, ty: Type, v: Js)
    requires Sane(lib) && Proper(ty) && Marshal(lib, ty, v).Some?
    ensures var d := Marshal(lib, ty, v).value; Regular(d) && Plain(d) == Stripped(lib, ty, v)
    decreases Rank(v), if ty.Variant? then 1 else 0, 0
  {
    match ty
    case Basic(code) =>
    case Variant =>
      PayloadRank(v);
      if !Tag(v).Str? { InferredIsNotVariant(lib, v); }
      MarshalStrips(lib, lib.readSignature(InnerSignature(v)).value[0], Payload(v));
    case Array(elem) =>
      if elem.Entry? {
        PropsStrip(lib, elem.key, elem.value, v.props);
      } else {
        ItemsStrip(lib, Copies(elem, |v.items|), v.items);
      }
    case Struct(fields) => ItemsStrip(lib, fields, v.items);
  }

  lemma {:induction false} ItemsStrip(lib: Lib, types: seq<Type>, items: seq<Js>)
    requires Sane(lib) && AllProper(types) && MarshalItems(lib, types, items).Some?
    ensures |types| == |items|
    ensures var r := MarshalItems(lib, types, items).value;
            RegularItems(r, false) && PlainItems(r) == StrippedItems(lib, types, items)
    decreases RankAll(items), 0, 0
  {
    if items != [] {
      MarshalStrips(lib, types[0], items[0]);
      ItemsStrip(lib, types[1..], items[1..]);
      var r := MarshalItems(lib, types, items).value;
      assert r[1..] == MarshalItems(lib, types[1..], items[1..]).value;
    }
  }

  lemma {:induction false} PropsStrip(lib: Lib, key: Type, value: Type, props: seq<Prop>)
    requires Sane(lib) && key.Basic? && Proper(value) && MarshalProps(lib, key, value, props).Some?
    ensures var r := MarshalProps(lib, key, value, props).value;
            RegularItems(r, true) && PlainEntries(r) == StrippedProps(lib, value, props)
    decreases RankProps(props), 0, 0
  {
    if props != [] {
      MarshalStrips(lib, value, props[0].value);
      KeyIsText(lib, key, props[0].name);
      PropsStrip(lib, key, value, props[1..]);
      var r := MarshalProps(lib, key, value, props).value;
      assert r[1..] == MarshalProps(lib, key, value, props[1..]).value;
    }
  }

  /** A property name can only be marshalled as a text. */
  lemma KeyIsText(lib: Lib, key: Type, name: string)
    requires Sane(lib) && key.Basic? && Marshal(lib, key, Str(name)).Some?
    ensures BasicText(Marshal(lib, key, Str(name)).value) == CStr(name)
  {}

  /**
   The law of the pair: for every signature and all arguments that `append_values` accepts,
   the JSON text of the message parses to exactly the arguments, in order, with their
   variant tags stripped.
   */
  lemma ArgumentsComeBack(lib: Lib, signature: string, args: seq<Js>)
    requires Sane(lib) && MarshalAll(lib, signature, args).Some?
    ensures |lib.readSignature(signature).value| == |args|
    ensures Parse(PrintArgs(MarshalAll(lib, signature, args).value))
         == Some(JArray(StrippedItems(lib, lib.readSignature(signature).value, args)))
  {
    var values := MarshalAll(lib, signature, args).value;
    ItemsStrip(lib, lib.readSignature(signature).value, args);
    BracketedParses(values, "");
    assert PrintArgs(values) + "" == PrintArgs(values);
  }

  // ---- Every value can be sent

  /** A script value for a D-Bus value, with a tag on every variant. */
  function Scripted(d: Value): Js
    decreases d, 1
  {
    match d
    case IntValue(_, n) => Number(n)
    case BoolValue(b) => Bool(b)
    case TextValue(_, text) => Str(text)
    case VariantValue(signature, inner) => Obj([Prop("_t", Str(signature)), Prop("_v", Scripted(inner))])
    case ArrayValue(elem, items) => if elem.Entry? then Obj(ScriptedEntries(items)) else Arr(ScriptedItems(items))
    case StructValue(fields) => Arr(ScriptedItems(fields))
    case EntryValue(_, _) => Null
  }

  function ScriptedItems(items: seq<Value>): (r: seq<Js>)
    ensures |r| == |items|
    decreases items, 0
  {
    if items == [] then [] else [Scripted(items[0])] + ScriptedItems(items[1..])
  }

  function ScriptedEntries(items: seq<Value>): seq<Prop>
    decreases items, 0
  {
    if items == [] then [] else [ScriptedEntry(items[0])] + ScriptedEntries(items[1..])
  }

  function ScriptedEntry(d: Value): Prop
    decreases d, 0
  {
    if d.EntryValue? && d.key.TextValue? then Prop(d.key.text, Scripted(d.value)) else Prop("", Null)
  }

  /** Dictionary keys are texts, and the signatures of variants are C strings. */
  ghost predicate Expressible(d: Value) {
    match d
    case VariantValue(signature, inner) => '\0' !in signature && Expressible(inner)
    case ArrayValue(_, items) => forall i :: 0 <= i < |items| ==> Expressible(items[i])
    case StructValue(fields) => forall i :: 0 <= i < |fields| ==> Expressible(fields[i])
    case EntryValue(key, value) => key.TextValue? && Expressible(value)
    case _ => true
  }

  /** Every well-typed value is what `append_value` appends for some script value. */
  lemma {:induction false} EveryValueMarshals(lib: Lib, d: Value, ty: Type)
    requires Sane(lib) && Proper(ty) && HasType(lib, d, ty) && Expressible(d)
    ensures Marshal(lib, ty, Scripted(d)) == Some(d)
    decreases d, 1
  {
    match d
    case VariantValue(signature, inner) =>
      var t :| lib.readSignature(signature) == Some([t]) && HasType(lib, inner, t);
      var v := Scripted(d);
      assert lib.readSignature(signature).value == [t] && [t][0] == t;
      var second := Prop("_v", Scripted(inner));
      assert v.props[0] == Prop("_t", Str(signature)) && v.props[1..] == [second];
      assert Lookup([second], "_v") == second.value;
      assert Get(v, "_t") == Str(signature) && Get(v, "_v") == Scripted(inner);
      EveryValueMarshals(lib, inner, t);
    case ArrayValue(elem, items) =>
      if elem.Entry? {
        EntriesMarshal(lib, items, elem.key, elem.value);
      } else {
        ItemsMarshal(lib, items, Copies(elem, |items|));
      }
    case StructValue(fields) => ItemsMarshal(lib, fields, ty.fields);
    case _ =>
  }

  lemma {:induction false} ItemsMarshal(lib: Lib, items: seq<Value>, types: seq<Type>)
    requires Sane(lib) && |items| == |types| && AllProper(types)
    requires forall i :: 0 <= i < |items| ==> HasType(lib, items[i], types[i]) && Expressible(items[i])
    ensures MarshalItems(lib, types, ScriptedItems(items)) == Some(items)
    decreases items, 0
  {
    if items != [] {
      EveryValueMarshals(lib, items[0], types[0]);
      ItemsMarshal(lib, items[1..], types[1..]);
      assert ScriptedItems(items)[1..] == ScriptedItems(items[1..]);
      assert items == [items[0]] + items[1..];
    }
  }

  lemma {:induction false} EntryMarshals(lib: Lib, d: Value, key: Type, value: Type)
    requires Sane(lib) && key.Basic? && Proper(value) && HasType(lib, d, Entry(key, value)) && Expressible(d)
    ensures var p := ScriptedEntry(d);
            && Marshal(lib, key, Str(p.name)).Some? && Marshal(lib, value, p.value).Some?
            && d == EntryValue(Marshal(lib, key, Str(p.name)).value, Marshal(lib, value, p.value).value)
    decreases d, 0
  {
    EveryValueMarshals(lib, d.value, value);
  }

  lemma {:induction false} EntriesMarshal(lib: Lib, items: seq<Value>, key: Type, value: Type)
    requires Sane(lib) && key.Basic? && Proper(value)
    requires forall i :: 0 <= i < |items| ==> HasType(lib, items[i], Entry(key, value)) && Expressible(items[i])
    ensures MarshalProps(lib, key, value, ScriptedEntries(items)) == Some(items)
    decreases items, 0
  {
    if items != [] {
      EntryMarshals(lib, items[0], key, value);
      EntriesMarshal(lib, items[1..], key, value);
      assert ScriptedEntries(items)[1..] == ScriptedEntries(items[1..]);
      assert items == [items[0]] + items[1..];
    }
  }
}
