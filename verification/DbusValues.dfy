/**
 D-Bus types and values, script values, and what `append_value` makes of them. libdbus
 itself is a parameter: how it reads signatures and which object paths it accepts.
 */
module DbusValues {
  import opened Text

  datatype Code =
    | Byte | Int16 | UInt16 | Int32 | UInt32 | Int64 | UInt64
    | Boolean | String | ObjectPath | Signature
    | Other  // a type that the marshaller refuses

  datatype Type =
    | Basic(code: Code)
    | Variant
    | Array(elem: Type)
    | Struct(fields: seq<Type>)
    | Entry(key: Type, value: Type)  // only as the element of an array

  datatype Value =
    | IntValue(code: Code, n: int)
    | BoolValue(b: bool)
    | TextValue(code: Code, text: string)
    | VariantValue(signature: string, inner: Value)
    | ArrayValue(elem: Type, items: seq<Value>)
    | StructValue(fields: seq<Value>)
    | EntryValue(key: Value, value: Value)

  /** A script value: a finite tree. Numbers that are not integers are all alike here. */
  datatype Js =
    | Undefined
    | Null
    | Bool(b: bool)
    | Number(n: int)
    | OddNumber
    | Str(s: string)
    | Arr(items: seq<Js>)
    | Obj(props: seq<Prop>)

  /** An own enumerable property, in enumeration order. */
  datatype Prop = Prop(name: string, value: Js)

  /** What the code asks of libdbus. */
  datatype Lib = Lib(readSignature: string -> Option<seq<Type>>, validPath: string -> bool)

  /** Dictionary entries occur only as elements of arrays, and their keys are basic. */
  ghost predicate Proper(ty: Type) {
    match ty
    case Array(elem) => if elem.Entry? then elem.key.Basic? && Proper(elem.value) else Proper(elem)
    case Struct(fields) => forall i :: 0 <= i < |fields| ==> Proper(fields[i])
    case Entry(_, _) => false
    case _ => true
  }

  ghost predicate AllProper(types: seq<Type>) {
    forall i :: 0 <= i < |types| ==> Proper(types[i])
  }

  /** What the D-Bus specification says about signatures, as far as it matters here. */
  ghost predicate Sane(lib: Lib) {
    && (forall s :: lib.readSignature(s).Some? ==> AllProper(lib.readSignature(s).value))
    && lib.readSignature("") == Some([])
    && lib.readSignature("s") == Some([Basic(String)])
    && lib.readSignature("b") == Some([Basic(Boolean)])
    && lib.readSignature("i") == Some([Basic(Int32)])
    && lib.readSignature("ay") == Some([Array(Basic(Byte))])
    && lib.readSignature("as") == Some([Array(Basic(String))])
  }

  // ---- Script values

  function Rank(v: Js): nat {
    match v
    case Arr(items) => 1 + RankAll(items)
    case Obj(props) => 1 + RankProps(props)
    case Undefined => 0
    case _ => 1
  }

  function RankAll(items: seq<Js>): nat {
    if items == [] then 0 else 1 + Rank(items[0]) + RankAll(items[1..])
  }

  function RankProps(props: seq<Prop>): nat {
    if props == [] then 0 else 2 + Rank(props[0].value) + RankProps(props[1..])
  }

  lemma {:induction false} RankItem(items: seq<Js>, i: nat)
    requires i < |items|
    ensures Rank(items[i]) < RankAll(items)
  {
    if i > 0 { RankItem(items[1..], i - 1); }
  }

  lemma {:induction false} RankProp(props: seq<Prop>, i: nat)
    requires i < |props|
    ensures Rank(props[i].value) + 2 <= RankProps(props)
  {
    if i > 0 { RankProp(props[1..], i - 1); }
  }

  function Lookup(props: seq<Prop>, name: string): Js {
    if props == [] then Undefined
    else if props[0].name == name then props[0].value
    else Lookup(props[1..], name)
  }

  /** `JS_GetPropertyStr`: only objects have the properties asked for. */
  function Get(v: Js, name: string): Js {
    if v.Obj? then Lookup(v.props, name) else Undefined
  }

  lemma {:induction false} LookupRank(props: seq<Prop>, name: string)
    ensures Rank(Lookup(props, name)) <= RankProps(props)
  {
    if props != [] && props[0].name != name { LookupRank(props[1..], name); }
  }

  /** A C string: `js_to_string` cuts a script string at its first NUL. */
  function CStr(s: string): (r: string)
    ensures '\0' !in r
    ensures '\0' !in s ==> r == s
  {
    if s == "" || s[0] == '\0' then "" else [s[0]] + CStr(s[1..])
  }

  // ---- Variants

  function Tag(v: Js): Js {
    if Get(v, "_t").Str? then Get(v, "_t") else Get(v, "t")
  }

  function Payload(v: Js): Js {
    if Tag(v).Str? then (if Get(v, "_v").Undefined? then Get(v, "v") else Get(v, "_v")) else v
  }

  predicate IsNumber(v: Js) {
    v.Number? || v.OddNumber?
  }

  /** The signature of a variant: the tag of a tagged value, otherwise inferred. */
  function InnerSignature(v: Js): string {
    if Tag(v).Str? then CStr(Tag(v).s)
    else
      match v
      case Str(_) => "s"
      case Bool(_) => "b"
      case Number(_) => "i"
      case OddNumber => "i"
      case Arr(items) => if items != [] && IsNumber(items[0]) then "ay" else "as"
      case _ => ""
  }

  lemma PayloadRank(v: Js)
    ensures Rank(Payload(v)) <= Rank(v)
    ensures Tag(v).Str? ==> Rank(Payload(v)) < Rank(v)
  {
    if v.Obj? {
      LookupRank(v.props, "_v");
      LookupRank(v.props, "v");
    }
  }

  lemma InferredIsNotVariant(lib: Lib, v: Js)
    requires Sane(lib) && !Tag(v).Str?
    ensures var t := lib.readSignature(InnerSignature(v));
            t == Some([]) || (t.Some? && |t.value| == 1 && !t.value[0].Variant?)
  {}

  // ---- Marshalling

  const MAX_SAFE := 9007199254740991

  /** The integers that `append_value` lets through for a type code, or `None` for other codes. */
  function IntRange(code: Code): Option<(int, int)> {
    match code
    case Byte => Some((0, 255))
    case Int16 => Some((-32768, 32767))
    case UInt16 => Some((0, 65535))
    case Int32 => Some((-2147483648, 2147483647))
    case UInt32 => Some((0, 4294967295))
    case Int64 => Some((-MAX_SAFE, MAX_SAFE))
    case UInt64 => Some((0, MAX_SAFE))
    case _ => None
  }

  predicate IsText(code: Code) {
    code == String || code == ObjectPath || code == Signature
  }

  function MarshalBasic(lib: Lib, code: Code, v: Js): Option<Value> {
    if IsText(code) then
      if !v.Str? then None
      else
        var text := CStr(v.s);
        if code == ObjectPath && !lib.validPath(text) then None
        else if code == Signature && lib.readSignature(text).None? then None
        else Some(TextValue(code, text))
    else if code == Boolean then
      if v.Bool? then Some(BoolValue(v.b)) else None
    else
      match IntRange(code)
      case None => None
      case Some((lo, hi)) => if v.Number? && lo <= v.n <= hi then Some(IntValue(code, v.n)) else None
  }

  /** The type of every item of an array. */
  function Copies(ty: Type, n: nat): (r: seq<Type>)
    ensures |r| == n && forall i :: 0 <= i < n ==> r[i] == ty
  {
    seq(n, _ => ty)
  }

  /** The value that `append_value` appends for `v`, `None` where it returns false. */
  function Marshal(lib: Lib, ty: Type, v: Js): Option<Value>
    requires Sane(lib)
    decreases Rank(v), if ty.Variant? then 1 else 0, 0
  {
    match ty
    case Basic(code) => MarshalBasic(lib, code, v)
    case Variant =>
      PayloadRank(v);
      var inner := MarshalInner(lib, v);
      if inner == None then None else Some(VariantValue(InnerSignature(v), inner.value))
    case Array(elem) =>
      var items := if elem.Entry? then (if v.Obj? then MarshalProps(lib, elem.key, elem.value, v.props) else None)
                   else if v.Arr? then MarshalItems(lib, Copies(elem, |v.items|), v.items) else None;
      if items == None then None else Some(ArrayValue(elem, items.value))
    case Struct(fields) =>
      var items := if v.Arr? then MarshalItems(lib, fields, v.items) else None;
      if items == None then None else Some(StructValue(items.value))
    case Entry(_, _) => None
  }

  /** The payload of a variant, marshalled with the signature that comes with it. */
  function MarshalInner(lib: Lib, v: Js): Option<Value>
    requires Sane(lib)
    decreases Rank(v), 0, 1
  {
    var types := lib.readSignature(InnerSignature(v));
    if types == None || |types.value| != 1 then None
    else
      PayloadRank(v);
      if !Tag(v).Str? then InferredIsNotVariant(lib, v); Marshal(lib, types.value[0], v)
      else Marshal(lib, types.value[0], Payload(v))
  }

  /** One item for each type, or nothing. */
  function MarshalItems(lib: Lib, types: seq<Type>, items: seq<Js>): Option<seq<Value>>
    requires Sane(lib)
    decreases RankAll(items), 0, 0
  {
    if items == [] then (if types == [] then Some([]) else None)
    else if types == [] then None
    else
      var first := Marshal(lib, types[0], items[0]);
      var rest := MarshalItems(lib, types[1..], items[1..]);
      if first == None || rest == None then None else Some([first.value] + rest.value)
  }

  /** One entry for each property; the name is marshalled as a string value. */
  function MarshalProps(lib: Lib, key: Type, value: Type, props: seq<Prop>): Option<seq<Value>>
    requires Sane(lib)
    decreases RankProps(props), 0, 0
  {
    if props == [] then Some([])
    else
      var k := Marshal(lib, key, Str(props[0].name));
      var v := Marshal(lib, value, props[0].value);
      var rest := MarshalProps(lib, key, value, props[1..]);
      if k == None || v == None || rest == None then None
      else Some([EntryValue(k.value, v.value)] + rest.value)
  }

  // ---- Typing

  /** `d` is a value of type `ty`; integers are in the range of their type. */
  ghost predicate HasType(lib: Lib, d: Value, ty: Type) {
    match d
    case IntValue(code, n) =>
      ty == Basic(code) && IntRange(code).Some? && IntRange(code).value.0 <= n <= IntRange(code).value.1
    case BoolValue(_) => ty == Basic(Boolean)
    case TextValue(code, text) =>
      && ty == Basic(code) && IsText(code) && '\0' !in text
      && (code == ObjectPath ==> lib.validPath(text))
      && (code == Signature ==> lib.readSignature(text).Some?)
    case VariantValue(signature, inner) =>
      ty == Variant && exists t :: lib.readSignature(signature) == Some([t]) && HasType(lib, inner, t)
    case ArrayValue(elem, items) => ty == Array(elem) && forall i :: 0 <= i < |items| ==> HasType(lib, items[i], elem)
    case StructValue(fields) =>
      ty.Struct? && |fields| == |ty.fields| && forall i :: 0 <= i < |fields| ==> HasType(lib, fields[i], ty.fields[i])
    case EntryValue(key, value) => ty.Entry? && HasType(lib, key, ty.key) && HasType(lib, value, ty.value)
  }

  /** What is appended has the requested type: nothing else can be in the message. */
  lemma {:induction false} MarshalTyped(lib: Lib, ty: Type, v: Js)
    requires Sane(lib) && Marshal(lib, ty, v).Some?
    ensures HasType(lib, Marshal(lib, ty, v).value, ty)
    decreases Rank(v), if ty.Variant? then 1 else 0, 0
  {
    match ty
    case Basic(code) =>
    case Variant =>
      PayloadRank(v);
      var types := lib.readSignature(InnerSignature(v)).value;
      if !Tag(v).Str? { InferredIsNotVariant(lib, v); }
      assert types == [types[0]];
      MarshalTyped(lib, types[0], Payload(v));
    case Array(elem) =>
      if elem.Entry? {
        MarshalPropsTyped(lib, elem.key, elem.value, v.props);
      } else {
        MarshalItemsTyped(lib, Copies(elem, |v.items|), v.items);
      }
    case Struct(fields) => MarshalItemsTyped(lib, fields, v.items);
  }

  lemma {:induction false} MarshalItemsTyped(lib: Lib, types: seq<Type>, items: seq<Js>)
    requires Sane(lib) && MarshalItems(lib, types, items).Some?
    ensures var r := MarshalItems(lib, types, items).value;
            |r| == |types| == |items| && forall i :: 0 <= i < |r| ==> HasType(lib, r[i], types[i])
    decreases RankAll(items), 0, 0
  {
    if items != [] {
      MarshalTyped(lib, types[0], items[0]);
      MarshalItemsTyped(lib, types[1..], items[1..]);
    }
  }

  lemma {:induction false} MarshalPropsTyped(lib: Lib, key: Type, value: Type, props: seq<Prop>)
    requires Sane(lib) && MarshalProps(lib, key, value, props).Some?
    ensures var r := MarshalProps(lib, key, value, props).value;
            |r| == |props| && forall i :: 0 <= i < |r| ==> HasType(lib, r[i], Entry(key, value))
    decreases RankProps(props), 0, 0
  {
    if props != [] {
      MarshalTyped(lib, key, Str(props[0].name));
      MarshalTyped(lib, value, props[0].value);
      MarshalPropsTyped(lib, key, value, props[1..]);
    }
  }
}
