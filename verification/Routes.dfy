/** Routes with path parameters: compilation of a pattern, matching, and substitution. */
module Routes {
  import opened Text

  const MARKER: char := ':'
  const SEPARATOR: char := '/'
  /** A compiled pattern: what stands before each parameter, and perhaps behind the last. */
  datatype Route = Route(fragments: seq<string>, names: seq<string>)

  /** The text behind a parameter, without the separator that ends its name. */
  function Behind(t: string): string {
    var s := IndexOf(t, SEPARATOR);
    if s == |t| then "" else t[s + 1..]
  }

  /** The fragments and the names of a pattern. */
  function Parts(t: string): Route
    decreases |t|
  {
    var m := IndexOf(t, MARKER);
    if m == |t| then Route(if t == "" then [] else [t], [])
    else
      var rest := t[m + 1..];
      var more := Parts(Behind(rest));
      Route([t[..m]] + more.fragments, [rest[..IndexOf(rest, SEPARATOR)]] + more.names)
  }

  /** The pattern with values in place of its parameters. */
  function Substitute(t: string, values: seq<string>): string
    decreases |t|, 0
  {
    var m := IndexOf(t, MARKER);
    if m == |t| || values == [] then t
    else t[..m] + (values[0] + SubstituteTail(t[m + 1..], values[1..]))
  }

  /** What follows the value of a parameter whose name starts here. */
  function SubstituteTail(rest: string, values: seq<string>): string
    decreases |rest|, 1
  {
    var s := IndexOf(rest, SEPARATOR);
    if s == |rest| then "" else "/" + Substitute(rest[s + 1..], values)
  }

  /** `strncmp(a, b, |b|) == 0`, for `a` at least as long as `b`. */
  predicate SamePrefix(a: string, b: string)
    requires |b| <= |a|
  {
    b == "" || (a[0] == b[0] && (a[0] == NUL || SamePrefix(a[1..], b[1..])))
  }

  /** The comparison is equality as long as one side has no NUL. */
  lemma {:induction false} SamePrefixIs(a: string, b: string)
    requires |b| <= |a| && (NUL !in a || NUL !in b)
    ensures SamePrefix(a, b) <==> a[..|b|] == b
  {
    if b != "" {
      SamePrefixIs(a[1..], b[1..]);
      assert a[..|b|] == [a[0]] + a[1..][..|b| - 1];
      assert b == [b[0]] + b[1..];
    }
  }

  /** What is left of a text behind the next separator; nothing, not even an end, without one. */
  function Rest(t: string): Option<string> {
    var s := IndexOf(t, SEPARATOR);
    if s == |t| then None else Some(t[s + 1..])
  }

  /** Matching what is left of a path; `None` is a position behind its end. */
  function MatchRest(fragments: seq<string>, names: seq<string>, left: Option<string>): Option<seq<string>>
    decreases |fragments|
  {
    if fragments == [] then if left.None? || left.value == "" then Some([]) else None
    else if left.None? then None
    else
      var (t, f) := (left.value, fragments[0]);
      if |f| > |t| || !SamePrefix(t, f) then None
      else if names == [] then MatchRest(fragments[1..], [], Some(t[|f|..]))
      else Captured(Value(t[|f|..]), MatchRest(fragments[1..], names[1..], Rest(t[|f|..])))
  }

  function Value(t: string): string {
    t[..IndexOf(t, SEPARATOR)]
  }

  function Captured(value: string, more: Option<seq<string>>): Option<seq<string>> {
    if more.None? then None else Some([value] + more.value)
  }

  function MoreParts(t: string): Route
    requires IndexOf(t, MARKER) < |t|
  {
    Parts(Behind(t[IndexOf(t, MARKER) + 1..]))
  }

  lemma PartsMore(t: string)
    requires IndexOf(t, MARKER) < |t|
    ensures Parts(t).fragments == [t[..IndexOf(t, MARKER)]] + MoreParts(t).fragments
    ensures Parts(t).names != [] && Parts(t).names[1..] == MoreParts(t).names
  {}

  function Match(pattern: string, path: string): Option<seq<string>> {
    var r := Parts(pattern);
    MatchRest(r.fragments, r.names, Some(path))
  }

  // ---- Substituting and matching

  predicate Plain(values: seq<string>) {
    forall i :: 0 <= i < |values| ==> SEPARATOR !in values[i]
  }

  /** A text that goes on, if at all, with a separator. */
  predicate AtSeparator(t: string) {
    t == "" || t[0] == SEPARATOR
  }

  lemma ValueIs(value: string, rest: string)
    requires SEPARATOR !in value && AtSeparator(rest)
    ensures Value(value + rest) == value
    ensures Rest(value + rest) == if rest == "" then None else Some(rest[1..])
  {
    if rest == "" {
      assert value + rest == value;
      IndexOfIs(value, SEPARATOR, "");
    } else {
      assert value + rest == value + [SEPARATOR] + rest[1..];
      IndexOfIs(value, SEPARATOR, rest[1..]);
    }
  }

  /** One parameter: its fragment is found and its value is what is captured. */
  lemma StepMatches(f: string, value: string, rest: string, fragments: seq<string>, names: seq<string>)
    requires NUL !in f && SEPARATOR !in value && AtSeparator(rest) && names != []
    ensures (MatchRest([f] + fragments, names, Some(f + (value + rest)))
             == Captured(value, MatchRest(fragments, names[1..], if rest == "" then None else Some(rest[1..]))))
  {
    var t := f + (value + rest);
    SamePrefixIs(t, f);
    assert t[..|f|] == f && t[|f|..] == value + rest;
    ValueIs(value, rest);
    assert ([f] + fragments)[1..] == fragments;
  }

  lemma LastMatches(f: string, t: string)
    requires NUL !in f
    ensures MatchRest([f], [], Some(t)) == if t == f then Some([]) else None
  {
    if |f| <= |t| {
      SamePrefixIs(t, f);
      assert t == t[..|f|] + t[|f|..];
    }
  }

  lemma NulFree(t: string, m: nat)
    requires NUL !in t && m < |t|
    ensures NUL !in t[..m] && NUL !in Behind(t[m + 1..])
  {}

  /** The parameter in front, given what the rest of the pattern does. */
  lemma SubstitutedFirst(f: string, rest: string, values: seq<string>, more: Route, names: seq<string>)
    requires NUL !in f && values != [] && SEPARATOR !in values[0] && names != [] && names[1..] == more.names
    requires if IndexOf(rest, SEPARATOR) == |rest| then more.fragments == [] && |values| == 1
             else MatchRest(more.fragments, more.names, Some(Substitute(Behind(rest), values[1..])))
                  == Some(values[1..])
    ensures (MatchRest([f] + more.fragments, names, Some(f + (values[0] + SubstituteTail(rest, values[1..]))))
             == Some(values))
  {
    var tail := SubstituteTail(rest, values[1..]);
    StepMatches(f, values[0], tail, more.fragments, names);
    if tail != "" { assert tail[1..] == Substitute(Behind(rest), values[1..]); }
    assert values == [values[0]] + values[1..];
  }

  /** Every path got by substituting values without separators is accepted, with those values. */
  lemma {:induction false} SubstitutedMatches(t: string, values: seq<string>)
    requires NUL !in t && Plain(values) && |values| == |Parts(t).names|
    ensures Match(t, Substitute(t, values)) == Some(values)
    decreases |t|
  {
    var m := IndexOf(t, MARKER);
    if m == |t| {
      assert values == [];
      LastMatches(t, t);
    } else {
      var rest := t[m + 1..];
      PartsMore(t);
      NulFree(t, m);
      if IndexOf(rest, SEPARATOR) < |rest| {
        SubstitutedMatches(Behind(rest), values[1..]);
      }
      SubstitutedFirst(t[..m], rest, values, MoreParts(t), Parts(t).names);
    }
  }

  /** The same up to one separator at the end. */
  predicate Close(path: string, s: string) {
    path == s || path == s + "/" || path + "/" == s
  }

  lemma CloseBehind(front: string, path: string, s: string)
    requires Close(path, s)
    ensures Close(front + path, front + s)
  {
    assert front + (s + "/") == front + s + "/";
    assert front + (path + "/") == front + path + "/";
  }

  lemma PartsEmpty(t: string)
    ensures Parts(t).fragments == [] <==> t == ""
  {}

  /** What an accepted path starts with. */
  lemma AcceptedStep(f: string, fragments: seq<string>, names: seq<string>, path: string)
    requires NUL !in f && names != [] && MatchRest([f] + fragments, names, Some(path)).Some?
    ensures |f| <= |path| && path == f + path[|f|..]
    ensures (MatchRest([f] + fragments, names, Some(path))
             == Captured(Value(path[|f|..]), MatchRest(fragments, names[1..], Rest(path[|f|..]))))
  {
    SamePrefixIs(path, f);
    assert ([f] + fragments)[1..] == fragments;
  }

  lemma ValueSplits(u: string)
    ensures SEPARATOR !in Value(u)
    ensures u == Value(u) + (if Rest(u).None? then "" else "/" + Rest(u).value)
  {
    IndexOfFirst(u, SEPARATOR);
    assert u[..|u|] == u;
  }

  /** The parameter in front, given what holds for the rest of the pattern and the path. */
  lemma AcceptedFirst(f: string, rest: string, value: string, inner: seq<string>, path: string, u: string)
    requires path == f + u && value == Value(u)
    requires match Rest(u)
             case None => Behind(rest) == "" && inner == []
             case Some(w) =>
               if IndexOf(rest, SEPARATOR) == |rest| then w == "" else Close(w, Substitute(Behind(rest), inner))
    ensures Close(path, f + (value + SubstituteTail(rest, inner)))
  {
    ValueSplits(u);
    var left := if Rest(u).None? then "" else "/" + Rest(u).value;
    if Rest(u).None? {
      TailClose(rest, inner, left);
    } else {
      LaterClose(rest, inner, Rest(u).value);
    }
    CloseBehind(value, left, SubstituteTail(rest, inner));
    CloseBehind(f, u, value + SubstituteTail(rest, inner));
  }

  /** Only such paths are accepted: substituting the captures gives the path up to a last separator. */
  lemma {:induction false} AcceptedIsSubstituted(t: string, path: string)
    requires NUL !in t && Match(t, path).Some?
    ensures var values := Match(t, path).value;
      |values| == |Parts(t).names| && Plain(values) && Close(path, Substitute(t, values))
    decreases |t|
  {
    var m := IndexOf(t, MARKER);
    if m == |t| {
      if t != "" { LastMatches(t, path); }
    } else {
      var rest := t[m + 1..];
      var more := MoreParts(t);
      PartsMore(t);
      NulFree(t, m);
      AcceptedStep(t[..m], more.fragments, Parts(t).names, path);
      var u := path[m..];
      var inner := MatchRest(more.fragments, more.names, Rest(u)).value;
      var values := Match(t, path).value;
      assert values == [Value(u)] + inner && values[1..] == inner;
      PartsEmpty(Behind(rest));
      if Rest(u).Some? && Behind(rest) != "" {
        AcceptedIsSubstituted(Behind(rest), Rest(u).value);
      }
      AcceptedFirst(t[..m], rest, Value(u), inner, path, u);
      ValueSplits(u);
      PlainMore(values);
    }
  }

  lemma PlainMore(values: seq<string>)
    requires values != [] && SEPARATOR !in values[0] && Plain(values[1..])
    ensures Plain(values)
  {
    forall i | 0 <= i < |values| ensures SEPARATOR !in values[i] {
      assert i > 0 ==> values[i] == values[1..][i - 1];
    }
  }

  /** Nothing is left of the path: nothing but a separator is left of the pattern. */
  lemma TailClose(rest: string, values: seq<string>, left: string)
    requires Behind(rest) == "" && values == [] && left == ""
    ensures Close(left, SubstituteTail(rest, values))
  {}

  lemma LaterClose(rest: string, values: seq<string>, w: string)
    requires if IndexOf(rest, SEPARATOR) == |rest| then w == "" else Close(w, Substitute(Behind(rest), values))
    ensures Close("/" + w, SubstituteTail(rest, values))
  {
    if IndexOf(rest, SEPARATOR) < |rest| {
      CloseBehind("/", w, Substitute(Behind(rest), values));
    }
  }

  // ---- The matcher

  predicate Unique(names: seq<string>) {
    forall i, j :: 0 <= i < j < |names| ==> names[i] != names[j]
  }

  /** The rest of a text from a position on that may lie one behind its end. */
  function From(t: string, i: nat): string {
    if i <= |t| then t[i..] else ""
  }

  method FindChar(t: string, c: char, from: nat) returns (pos: nat)
    requires from <= |t|
    ensures pos == from + IndexOf(t[from..], c) <= |t|
  {
    pos := from;
    while pos < |t| && t[pos] != c
      invariant from <= pos <= |t| && pos + IndexOf(t[pos..], c) == from + IndexOf(t[from..], c)
    {
      assert t[pos..][1..] == t[pos + 1..];
      pos := pos + 1;
    }
  }

  lemma Slices(pattern: string, last: nat, m: nat, sep: nat)
    requires last <= m < |pattern| && m < sep <= |pattern|
    ensures pattern[last..][m - last + 1..] == pattern[m + 1..]
    ensures pattern[last..][..m - last] == pattern[last..m]
    ensures pattern[m + 1..][..sep - m - 1] == pattern[m + 1..sep]
    ensures sep < |pattern| ==> pattern[m + 1..][sep - m..] == pattern[sep + 1..]
  {}

  /** The next parameter: the fragment before it, its name, and where the pattern goes on. */
  method NextParameter(pattern: string, last: nat) returns (fragment: string, name: string, next: nat)
    requires last <= |pattern| && MARKER in pattern[last..]
    ensures last < next <= |pattern| + 1
    ensures [fragment] + Parts(From(pattern, next)).fragments == Parts(pattern[last..]).fragments
    ensures [name] + Parts(From(pattern, next)).names == Parts(pattern[last..]).names
  {
    ghost var t := pattern[last..];
    var m := FindChar(pattern, MARKER, last);
    HasMarker(t);
    var sep := FindChar(pattern, SEPARATOR, m + 1);
    Slices(pattern, last, m, sep);
    fragment, name, next := pattern[last..m], pattern[m + 1..sep], sep + 1;
    PartsAre(t, fragment, pattern[m + 1..], name, From(pattern, next));
  }

  lemma PartsAre(t: string, f: string, rest: string, name: string, b: string)
    requires IndexOf(t, MARKER) == |f| < |t| && t[..|f|] == f && t[|f| + 1..] == rest
    requires name == rest[..IndexOf(rest, SEPARATOR)] && b == Behind(rest)
    ensures [f] + Parts(b).fragments == Parts(t).fragments && [name] + Parts(b).names == Parts(t).names
  {}

  lemma HasMarker(t: string)
    requires MARKER in t
    ensures IndexOf(t, MARKER) < |t|
  {
    IndexOfFirst(t, MARKER);
    assert t[..|t|] == t;
  }

  lemma UniqueMore(names: seq<string>, name: string)
    ensures Unique(names + [name]) <==> Unique(names) && name !in names
  {
    var all := names + [name];
    if name in names {
      var i :| 0 <= i < |names| && names[i] == name;
      assert all[i] == all[|names|];
    } else if Unique(names) {
      forall i, j | 0 <= i < j < |all| ensures all[i] != all[j] {
        assert i < |names| && (j < |names| ==> names[i] != names[j]);
      }
    } else {
      var i, j :| 0 <= i < j < |names| && names[i] == names[j];
      assert all[i] == all[j];
    }
  }

  lemma UniquePrefix(a: seq<string>, b: seq<string>)
    requires Unique(a + b)
    ensures Unique(a)
  {
    assert forall i :: 0 <= i < |a| ==> (a + b)[i] == a[i];
  }

  /** The constructor of the matcher; a parameter named twice is an error. */
  method Compile(pattern: string) returns (r: Option<Route>)
    ensures r == if Unique(Parts(pattern).names) then Some(Parts(pattern)) else None
  {
    var fragments, names: seq<string> := [], [];
    var last := 0;
    ghost var all := Parts(pattern);
    assert From(pattern, 0) == pattern;
    while last <= |pattern| && MARKER in pattern[last..]
      invariant 0 <= last <= |pattern| + 1
      invariant fragments + Parts(From(pattern, last)).fragments == all.fragments
      invariant names + Parts(From(pattern, last)).names == all.names && Unique(names)
      decreases |pattern| + 1 - last
    {
      var fragment, name, next := NextParameter(pattern, last);
      ghost var more := Parts(From(pattern, next));
      AppendAssociates(fragments, [fragment], more.fragments);
      AppendAssociates(names, [name], more.names);
      UniqueMore(names, name);
      if name in names {
        if Unique(all.names) { UniquePrefix(names + [name], more.names); }
        return None;
      }
      fragments, names, last := fragments + [fragment], names + [name], next;
    }
    ghost var t := From(pattern, last);
    NoMarker(t);
    if last < |pattern| {
      fragments := fragments + [pattern[last..]];
    }
    assert names + [] == names;
    assert t == "" ==> fragments + [] == fragments;
    r := Some(Route(fragments, names));
  }

  lemma NoMarker(t: string)
    requires MARKER !in t
    ensures Parts(t) == Route(if t == "" then [] else [t], [])
  {
    IndexOfIs(t, MARKER, "");
  }

  method StrNCmp(a: string, from: nat, b: string) returns (same: bool)
    requires from + |b| <= |a|
    ensures same == SamePrefix(a[from..], b)
  {
    var k := 0;
    while k < |b|
      invariant 0 <= k <= |b| && SamePrefix(a[from + k..], b[k..]) == SamePrefix(a[from..], b)
    {
      assert a[from + k..][1..] == a[from + k + 1..] && b[k..][1..] == b[k + 1..];
      if a[from + k] != b[k] { return false; }
      if b[k] == NUL { return true; }
      k := k + 1;
    }
    same := true;
  }

  /** What is left of the path from a position on. */
  function Left(path: string, start: nat): Option<string> {
    if start <= |path| then Some(path[start..]) else None
  }

  function Prepend(values: seq<string>, more: Option<seq<string>>): Option<seq<string>> {
    if more.None? then None else Some(values + more.value)
  }

  /** The value of a parameter and where the path goes on, perhaps behind its end. */
  method NextValue(path: string, start: nat) returns (value: string, next: nat)
    requires start <= |path|
    ensures start < next <= |path| + 1
    ensures value == Value(path[start..]) && Left(path, next) == Rest(path[start..])
  {
    var sep := FindChar(path, SEPARATOR, start);
    ValueAt(path, start, sep);
    value, next := path[start..sep], sep + 1;
  }

  /** One turn of the loop over fragments: the position behind the fragment, if it is there. */
  method SkipFragment(path: string, start: nat, f: string) returns (next: Option<nat>)
    ensures next.Some? <==> Left(path, start).Some? && |f| <= |path[start..]| && SamePrefix(path[start..], f)
    ensures next.Some? ==> next.value == start + |f| <= |path| && path[start..][|f|..] == path[next.value..]
  {
    if start + |f| > |path| { return None; }
    var same := StrNCmp(path, start, f);
    next := if same then Some(start + |f|) else None;
    assert path[start..][|f|..] == path[start + |f|..];
  }

  /** `match`, which yields the values in the order of the names. */
  method MatchPath(r: Route, path: string) returns (values: Option<seq<string>>)
    ensures values == MatchRest(r.fragments, r.names, Some(path))
  {
    var captured: seq<string> := [];
    var start: nat := 0;
    ghost var goal := MatchRest(r.fragments, r.names, Some(path));
    ghost var fs, ns := r.fragments, r.names;
    assert path[0..] == path && fs[0..] == fs && ns[0..] == ns;
    assert goal.Some? ==> [] + goal.value == goal.value;
    var i := 0;
    while i < |r.fragments|
      invariant 0 <= i <= |r.fragments| && fs == r.fragments[i..] && ns == Remaining(r.names, i)
      invariant Prepend(captured, MatchRest(fs, ns, Left(path, start))) == goal
    {
      var next := SkipFragment(path, start, r.fragments[i]);
      if next == None { return None; }
      start := next.value;
      if i < |r.names| {
        var value;
        value, start := NextValue(path, start);
        CaptureOne(captured, value, MatchRest(fs[1..], ns[1..], Left(path, start)));
        captured := captured + [value];
      }
      fs, ns := fs[1..], if ns == [] then [] else ns[1..];
      i := i + 1;
    }
    assert captured + [] == captured;
    values := if start >= |path| then Some(captured) else None;
  }

  function Remaining(names: seq<string>, i: nat): seq<string> {
    if i <= |names| then names[i..] else []
  }

  lemma ValueAt(path: string, start: nat, sep: nat)
    requires start <= |path| && sep == start + IndexOf(path[start..], SEPARATOR) <= |path|
    ensures Value(path[start..]) == path[start..sep] && Rest(path[start..]) == Left(path, sep + 1)
  {
    var u := path[start..];
    assert u[..sep - start] == path[start..sep];
    assert sep < |path| ==> u[sep - start + 1..] == path[sep + 1..];
  }

  lemma CaptureOne(captured: seq<string>, value: string, more: Option<seq<string>>)
    ensures Prepend(captured, Captured(value, more)) == Prepend(captured + [value], more)
  {
    if more.Some? { AppendAssociates(captured, [value], more.value); }
  }

  /** Compilation and matching together: the parameters of an accepted path, by name. */
  method RouteRequest(pattern: string, path: string) returns (params: Option<map<string, string>>)
    requires NUL !in pattern && Unique(Parts(pattern).names)
    ensures params.Some? <==> Match(pattern, path).Some?
    ensures params.Some? ==>
      && |Match(pattern, path).value| == |Parts(pattern).names|
      && forall i :: 0 <= i < |Parts(pattern).names| ==>
           && Parts(pattern).names[i] in params.value
           && params.value[Parts(pattern).names[i]] == Match(pattern, path).value[i]
  {
    var r := Compile(pattern);
    var values := MatchPath(r.value, path);
    if values == None { return None; }
    AcceptedIsSubstituted(pattern, path);
    var names := r.value.names;
    var m: map<string, string> := map[];
    for i := 0 to |names|
      invariant forall k :: 0 <= k < i ==> names[k] in m && m[names[k]] == values.value[k]
    {
      m := m[names[i] := values.value[i]];
    }
    params := Some(m);
  }
}
