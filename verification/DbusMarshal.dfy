/** `append_values` and `append_value` on a message under construction. */
module DbusMarshal {
  import opened Text
  import opened DbusValues

  /** A container that has been opened, with the values appended to it so far. */
  datatype Kind = InMessage | InVariant(signature: string) | InArray(elem: Type) | InStruct | InEntry
  datatype Frame = Frame(kind: Kind, values: seq<Value>)

  /** Whether a container holds what its kind demands. */
  predicate Complete(f: Frame) {
    match f.kind
    case InMessage => false
    case InVariant(_) => |f.values| == 1
    case InEntry => |f.values| == 2
    case _ => true
  }

  function Composite(f: Frame): Value
    requires Complete(f)
  {
    match f.kind
    case InVariant(signature) => VariantValue(signature, f.values[0])
    case InArray(elem) => ArrayValue(elem, f.values)
    case InStruct => StructValue(f.values)
    case InEntry => EntryValue(f.values[0], f.values[1])
  }

  /** The frames after some values were appended to the innermost container. */
  function With(frames: seq<Frame>, values: seq<Value>): seq<Frame>
    requires frames != []
  {
    var n := |frames| - 1;
    frames[..n] + [Frame(frames[n].kind, frames[n].values + values)]
  }

  class Message {
    var frames: seq<Frame>

    constructor ()
      ensures frames == [Frame(InMessage, [])]
    {
      frames := [Frame(InMessage, [])];
    }

    method OpenContainer(kind: Kind)
      modifies this
      ensures frames == old(frames) + [Frame(kind, [])]
    {
      frames := frames + [Frame(kind, [])];
    }

    method AppendBasic(d: Value)
      requires frames != []
      modifies this
      ensures frames == With(old(frames), [d])
    {
      var n := |frames| - 1;
      frames := frames[n := Frame(frames[n].kind, frames[n].values + [d])];
    }

    method CloseContainer()
      requires |frames| >= 2 && Complete(frames[|frames| - 1])
      modifies this
      ensures frames == With(old(frames)[..|old(frames)| - 1], [Composite(old(frames)[|old(frames)| - 1])])
    {
      var n := |frames| - 1;
      var d := Composite(frames[n]);
      frames := frames[..n];
      AppendBasic(d);
    }

    method AbandonContainer()
      requires frames != []
      modifies this
      ensures frames == old(frames)[..|old(frames)| - 1]
    {
      frames := frames[..|frames| - 1];
    }
  }

  /** The frames while a container of kind `kind` is being filled. */
  function Filling(frames: seq<Frame>, kind: Kind, values: seq<Value>): seq<Frame> {
    frames + [Frame(kind, values)]
  }

  lemma FillingMore(frames: seq<Frame>, kind: Kind, values: seq<Value>, d: Value)
    ensures With(Filling(frames, kind, values), [d]) == Filling(frames, kind, values + [d])
    ensures Filling(frames, kind, values)[..|frames|] == frames
  {
    assert Filling(frames, kind, values)[..|frames|] == frames;
  }

  // ---- Marshalling in steps

  function Prepend(done: seq<Value>, rest: Option<seq<Value>>): Option<seq<Value>> {
    if rest == None then None else Some(done + rest.value)
  }

  lemma PrependNothing(rest: Option<seq<Value>>)
    ensures Prepend([], rest) == rest
  {
    if rest != None { assert [] + rest.value == rest.value; }
  }

  lemma ItemsStep(lib: Lib, types: seq<Type>, items: seq<Js>, i: nat, done: seq<Value>)
    requires Sane(lib) && i < |types| && i < |items|
    ensures Prepend(done, MarshalItems(lib, types[i..], items[i..])) == (
              var first := Marshal(lib, types[i], items[i]);
              if first == None then None
              else Prepend(done + [first.value], MarshalItems(lib, types[i + 1..], items[i + 1..])))
  {
    assert types[i..][1..] == types[i + 1..] && items[i..][1..] == items[i + 1..];
    var first, rest := Marshal(lib, types[i], items[i]), MarshalItems(lib, types[i + 1..], items[i + 1..]);
    if first != None && rest != None { AppendAssociates(done, [first.value], rest.value); }
  }

  lemma PropsStep(lib: Lib, key: Type, value: Type, props: seq<Prop>, i: nat, done: seq<Value>)
    requires Sane(lib) && i < |props|
    ensures Prepend(done, MarshalProps(lib, key, value, props[i..])) == (
              var k, v := Marshal(lib, key, Str(props[i].name)), Marshal(lib, value, props[i].value);
              if k == None || v == None then None
              else Prepend(done + [EntryValue(k.value, v.value)], MarshalProps(lib, key, value, props[i + 1..])))
  {
    assert props[i..][1..] == props[i + 1..];
    var k, v := Marshal(lib, key, Str(props[i].name)), Marshal(lib, value, props[i].value);
    var rest := MarshalProps(lib, key, value, props[i + 1..]);
    if k != None && v != None && rest != None {
      AppendAssociates(done, [EntryValue(k.value, v.value)], rest.value);
    }
  }

  function MaxRank(args: seq<Js>): nat {
    if args == [] then 0
    else if Rank(args[0]) < MaxRank(args[1..]) then MaxRank(args[1..]) else Rank(args[0])
  }

  lemma {:induction false} MaxRankIs(args: seq<Js>, i: nat)
    requires i < |args|
    ensures Rank(args[i]) <= MaxRank(args)
  {
    if i > 0 { MaxRankIs(args[1..], i - 1); }
  }

  /** The values that a call of `append_values` appends, `None` where it returns false. */
  function MarshalAll(lib: Lib, signature: string, args: seq<Js>): Option<seq<Value>>
    requires Sane(lib)
  {
    var types := lib.readSignature(signature);
    if types == None then None else MarshalItems(lib, types.value, args)
  }

  predicate HasVariant(types: Option<seq<Type>>) {
    types.Some? && Variant in types.value
  }

  /**
   True only when the message gained exactly the values of the signature; every container
   that was opened is closed or abandoned either way.
   */
  method AppendValues(out: Message, lib: Lib, signature: string, args: seq<Js>) returns (ok: bool)
    requires Sane(lib) && out.frames != []
    modifies out
    ensures ok == MarshalAll(lib, signature, args).Some?
    ensures ok ==> out.frames == With(old(out.frames), MarshalAll(lib, signature, args).value)
    ensures !ok ==> exists some :: out.frames == With(old(out.frames), some)
    decreases MaxRank(args), if HasVariant(lib.readSignature(signature)) then 2 else 0, 4
  {
    var types := lib.readSignature(signature);
    ghost var start := out.frames;
    WithNone(start);
    if types == None { return false; }
    var sig := types.value;
    assert sig[0..] == sig && args[0..] == args;
    PrependNothing(MarshalItems(lib, sig, args));
    var index := 0;
    ghost var done: seq<Value> := [];
    while index < |sig|
      invariant index <= |sig| && index <= |args|
      invariant out.frames == With(start, done)
      invariant MarshalItems(lib, sig, args) == Prepend(done, MarshalItems(lib, sig[index..], args[index..]))
    {
      if index >= |args| { return false; }
      ItemsStep(lib, sig, args, index, done);
      MaxRankIs(args, index);
      var appended := AppendValue(out, lib, sig[index], args[index]);
      if !appended { return false; }
      ghost var d := Marshal(lib, sig[index], args[index]).value;
      WithTwice(start, done, [d]);
      done := done + [d];
      index := index + 1;
    }
    assert sig[index..] == [] && done + [] == done;
    return index == |args|;
  }

  lemma WithNone(frames: seq<Frame>)
    requires frames != []
    ensures With(frames, []) == frames
  {
    var n := |frames| - 1;
    assert frames[n].values + [] == frames[n].values;
    assert frames == frames[..n] + [frames[n]];
  }

  lemma WithTwice(frames: seq<Frame>, a: seq<Value>, b: seq<Value>)
    requires frames != []
    ensures With(With(frames, a), b) == With(frames, a + b)
  {
    var n := |frames| - 1;
    AppendAssociates(frames[n].values, a, b);
    assert With(frames, a)[..n] == frames[..n];
  }

  method AppendValue(out: Message, lib: Lib, ty: Type, value: Js) returns (ok: bool)
    requires Sane(lib) && out.frames != []
    modifies out
    ensures ok == Marshal(lib, ty, value).Some?
    ensures out.frames == if ok then With(old(out.frames), [Marshal(lib, ty, value).value]) else old(out.frames)
    decreases Rank(value), if ty.Variant? then 1 else 0, 3
  {
    match ty
    case Variant => ok := AppendVariant(out, lib, value);
    case Array(elem) =>
      if elem.Entry? {
        ok := AppendDictionary(out, lib, elem, value);
      } else {
        ok := AppendArray(out, lib, elem, value);
      }
    case Struct(fields) => ok := AppendStruct(out, lib, fields, value);
    case Basic(code) =>
      var d := MarshalBasic(lib, code, value);
      if d == None { return false; }
      out.AppendBasic(d.value);
      ok := true;
    case Entry(_, _) => ok := false;
  }

  method AppendVariant(out: Message, lib: Lib, value: Js) returns (ok: bool)
    requires Sane(lib) && out.frames != []
    modifies out
    ensures ok == Marshal(lib, Variant, value).Some?
    ensures out.frames == if ok then With(old(out.frames), [Marshal(lib, Variant, value).value]) else old(out.frames)
    decreases Rank(value), 1, 0
  {
    ghost var start := out.frames;
    var inner := InnerSignature(value);
    var types := lib.readSignature(inner);
    ok := false;
    if types != None && |types.value| == 1 {
      var payload := Payload(value);
      ghost var d := VariantIs(lib, value, types.value[0]);
      out.OpenContainer(InVariant(inner));
      ok := AppendValues(out, lib, inner, [payload]);
      assert out.frames[..|start|] == start;
      if ok {
        FillingMore(start, InVariant(inner), [], d.value);
        out.CloseContainer();
      } else {
        out.AbandonContainer();
      }
    }
  }

  lemma VariantIs(lib: Lib, value: Js, ty: Type) returns (d: Option<Value>)
    requires Sane(lib) && lib.readSignature(InnerSignature(value)).Some?
    requires |lib.readSignature(InnerSignature(value)).value| == 1
    requires ty == lib.readSignature(InnerSignature(value)).value[0]
    ensures var inner, payload := InnerSignature(value), Payload(value);
            && MarshalAll(lib, inner, [payload]) == (if d == None then None else Some([d.value]))
            && Marshal(lib, Variant, value) == (if d == None then None else Some(VariantValue(inner, d.value)))
            && MaxRank([payload]) <= Rank(value)
            && (MaxRank([payload]) < Rank(value) || !HasVariant(lib.readSignature(inner)))
  {
    PayloadRank(value);
    if !Tag(value).Str? { InferredIsNotVariant(lib, value); }
    var types := lib.readSignature(InnerSignature(value)).value;
    assert types == [ty];
    d := Marshal(lib, ty, Payload(value));
    SingleItem(lib, ty, Payload(value));
  }

  lemma SingleItem(lib: Lib, ty: Type, v: Js)
    requires Sane(lib)
    ensures var d := Marshal(lib, ty, v);
            MarshalItems(lib, [ty], [v]) == if d == None then None else Some([d.value])
  {
    assert [ty][1..] == [] && [v][1..] == [];
    var d := Marshal(lib, ty, v);
    if d != None { assert [d.value] + [] == [d.value]; }
  }

  method AppendDictionary(out: Message, lib: Lib, elem: Type, value: Js) returns (ok: bool)
    requires Sane(lib) && out.frames != [] && elem.Entry?
    modifies out
    ensures ok == Marshal(lib, Array(elem), value).Some?
    ensures out.frames
         == if ok then With(old(out.frames), [Marshal(lib, Array(elem), value).value]) else old(out.frames)
    decreases Rank(value), 0, 0
  {
    ghost var start := out.frames;
    out.OpenContainer(InArray(elem));
    ok := value.Obj?;
    ghost var done: seq<Value> := [];
    ghost var all := if ok then MarshalProps(lib, elem.key, elem.value, value.props) else None;
    assert ok ==> value.props[0..] == value.props;
    PrependNothing(all);
    var i := 0;
    while ok && i < |value.props|
      invariant ok ==> value.Obj? && i <= |value.props|
      invariant ok ==> all == Prepend(done, MarshalProps(lib, elem.key, elem.value, value.props[i..]))
      invariant !ok ==> all == None
      invariant out.frames == Filling(start, InArray(elem), done)
      decreases ok, if value.Obj? then |value.props| - i else 0
    {
      PropsStep(lib, elem.key, elem.value, value.props, i, done);
      RankProp(value.props, i);
      ok := AppendEntry(out, lib, elem, value.props[i], RankProps(value.props));
      if ok {
        ghost var d := EntryValue(Marshal(lib, elem.key, Str(value.props[i].name)).value,
                                  Marshal(lib, elem.value, value.props[i].value).value);
        FillingMore(start, InArray(elem), done, d);
        done := done + [d];
      }
      i := i + 1;
    }
    assert ok ==> done + [] == done;
    FillingMore(start, InArray(elem), done, BoolValue(true));
    if ok { out.CloseContainer(); } else { out.AbandonContainer(); }
  }

  method AppendEntry(out: Message, lib: Lib, elem: Type, prop: Prop, ghost bound: nat) returns (ok: bool)
    requires Sane(lib) && out.frames != [] && elem.Entry? && Rank(prop.value) + 2 <= bound
    modifies out
    ensures var k, v := Marshal(lib, elem.key, Str(prop.name)), Marshal(lib, elem.value, prop.value);
            && ok == (k != None && v != None)
            && out.frames == if ok then With(old(out.frames), [EntryValue(k.value, v.value)]) else old(out.frames)
    decreases bound, 0, 0
  {
    ghost var start := out.frames;
    ghost var done := [];
    out.OpenContainer(InEntry);
    ok, done := AppendItem(out, lib, elem.key, Str(prop.name), start, InEntry, []);
    if ok {
      ok, done := AppendItem(out, lib, elem.value, prop.value, start, InEntry, done);
    }
    if ok { out.CloseContainer(); } else { out.AbandonContainer(); }
  }

  /** One item of an array or a structure, behind those in the open container. */
  method AppendItem(out: Message, lib: Lib, ty: Type, item: Js, ghost start: seq<Frame>, ghost kind: Kind,
                    ghost done: seq<Value>)
    returns (ok: bool, ghost more: seq<Value>)
    requires Sane(lib) && out.frames == Filling(start, kind, done)
    modifies out
    ensures ok == Marshal(lib, ty, item).Some?
    ensures more == if ok then done + [Marshal(lib, ty, item).value] else done
    ensures out.frames == Filling(start, kind, more)
    decreases Rank(item), 1, 4
  {
    more := done;
    ok := AppendValue(out, lib, ty, item);
    if ok {
      ghost var d := Marshal(lib, ty, item).value;
      FillingMore(start, kind, done, d);
      more := done + [d];
    }
  }

  /** The loop over the items of an array. */
  method AppendItems(out: Message, lib: Lib, elem: Type, items: seq<Js>, ghost start: seq<Frame>, ghost bound: nat)
    returns (ok: bool, ghost done: seq<Value>)
    requires Sane(lib) && out.frames == Filling(start, InArray(elem), [])
    requires forall i :: 0 <= i < |items| ==> Rank(items[i]) < bound
    modifies out
    ensures MarshalItems(lib, Copies(elem, |items|), items) == if ok then Some(done) else None
    ensures out.frames == Filling(start, InArray(elem), done)
    decreases bound, 0, 0
  {
    done := [];
    ghost var types := Copies(elem, |items|);
    ghost var all := MarshalItems(lib, types, items);
    assert types[0..] == types && items[0..] == items;
    PrependNothing(all);
    for i := 0 to |items|
      invariant out.frames == Filling(start, InArray(elem), done)
      invariant all == Prepend(done, MarshalItems(lib, types[i..], items[i..]))
    {
      ItemsStep(lib, types, items, i, done);
      ok, done := AppendItem(out, lib, elem, items[i], start, InArray(elem), done);
      if !ok { return; }
    }
    assert done + [] == done;
    ok := true;
  }

  method AppendArray(out: Message, lib: Lib, elem: Type, value: Js) returns (ok: bool)
    requires Sane(lib) && out.frames != [] && !elem.Entry?
    modifies out
    ensures ok == Marshal(lib, Array(elem), value).Some?
    ensures out.frames
         == if ok then With(old(out.frames), [Marshal(lib, Array(elem), value).value]) else old(out.frames)
    decreases Rank(value), 0, 1
  {
    ghost var start := out.frames;
    out.OpenContainer(InArray(elem));
    ghost var done: seq<Value> := [];
    ok := value.Arr?;
    if ok {
      forall i: nat | i < |value.items| ensures Rank(value.items[i]) < Rank(value) { RankItem(value.items, i); }
      ok, done := AppendItems(out, lib, elem, value.items, start, Rank(value));
    }
    FillingMore(start, InArray(elem), done, BoolValue(true));
    if ok { out.CloseContainer(); } else { out.AbandonContainer(); }
  }

  method AppendStruct(out: Message, lib: Lib, fields: seq<Type>, value: Js) returns (ok: bool)
    requires Sane(lib) && out.frames != []
    modifies out
    ensures ok == Marshal(lib, Struct(fields), value).Some?
    ensures out.frames
         == if ok then With(old(out.frames), [Marshal(lib, Struct(fields), value).value]) else old(out.frames)
    decreases Rank(value), 0, 0
  {
    ghost var start := out.frames;
    out.OpenContainer(InStruct);
    ok := value.Arr?;
    ghost var done: seq<Value> := [];
    ghost var all := if ok then MarshalItems(lib, fields, value.items) else None;
    assert fields[0..] == fields && (ok ==> value.items[0..] == value.items);
    PrependNothing(all);
    var i := 0;
    while ok && i < |value.items|
      invariant ok ==> value.Arr? && i <= |value.items| && i <= |fields|
      invariant ok ==> all == Prepend(done, MarshalItems(lib, fields[i..], value.items[i..]))
      invariant !ok ==> all == None
      invariant out.frames == Filling(start, InStruct, done)
      decreases ok, if value.Arr? then |value.items| - i else 0
    {
      if i == |fields| {
        assert fields[i..] == [];
        ok := false;
        break;
      }
      ItemsStep(lib, fields, value.items, i, done);
      RankItem(value.items, i);
      ok, done := AppendItem(out, lib, fields[i], value.items[i], start, InStruct, done);
      i := i + 1;
    }
    assert ok ==> done + [] == done && value.items[i..] == [];
    if ok && i < |fields| { ok := false; }
    FillingMore(start, InStruct, done, BoolValue(true));
    if ok { out.CloseContainer(); } else { out.AbandonContainer(); }
  }
}
