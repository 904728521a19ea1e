/** The header lines that the writers print, read back: exactly which parts survive. */
module MultipartHeaders {
  import opened Text
  import opened Fields
  import opened MultipartFormat

  /** Names and filenames that fit into a parameter: the printer does not escape them. */
  predicate ParamClean(s: string) {
    ';' !in s && '=' !in s && '\r' !in s && '\n' !in s
  }

  // ---- What the parameter reader can return

  lemma {:induction false} TrimShrinks(s: string)
    ensures |Trim(s)| <= |s| && forall c :: c in Trim(s) ==> c in s
    ensures Trimmed(Trim(s))
  {
    TrimLeftShrinks(s);
    TrimRightShrinks(TrimLeft(s));
  }

  lemma {:induction false} TrimLeftShrinks(s: string)
    ensures |TrimLeft(s)| <= |s| && forall c :: c in TrimLeft(s) ==> c in s
    ensures TrimLeft(s) != "" ==> !IsBlank(TrimLeft(s)[0])
  {
    if s != "" && IsBlank(s[0]) { TrimLeftShrinks(s[1..]); }
  }

  lemma {:induction false} TrimRightShrinks(s: string)
    ensures TrimRight(s) <= s
    ensures TrimRight(s) != "" ==> !IsBlank(TrimRight(s)[|TrimRight(s)| - 1])
  {
    if s != "" && IsBlank(s[|s| - 1]) { TrimRightShrinks(s[..|s| - 1]); }
  }

  /** What a piece of `s` keeps of it. */
  predicate IsPiece(q: string, s: string, d: char) {
    d !in q && |q| <= |s| && forall c :: c in q ==> c in s
  }

  lemma PieceIsPiece(s: string, d: char, rest: string, t: string)
    requires d !in s && t == s + rest
    ensures |Piece(s)| <= 1
    ensures forall q :: q in Piece(s) ==> |q| <= |s| && IsPiece(q, t, d)
  {
    TrimShrinks(s);
  }

  lemma PieceOfRest(q: string, first: string, rest: string, t: string, d: char)
    requires IsPiece(q, rest, d) && t == first + [d] + rest
    ensures IsPiece(q, t, d)
  {}

  lemma PiecesMore(a: string, d: char, b: string, pieces: seq<string>, t: string)
    requires d !in a && t == a + [d] + b && forall q :: q in pieces ==> IsPiece(q, b, d)
    ensures forall q :: q in Piece(a) + pieces ==> IsPiece(q, t, d)
  {
    AppendAssociates(a, [d], b);
    PieceIsPiece(a, d, [d] + b, t);
    forall q | q in pieces ensures IsPiece(q, t, d) {
      PieceOfRest(q, a, b, t, d);
    }
  }

  lemma {:induction false} PiecesOf(s: string, d: char, pieces: seq<string>)
    requires pieces == Split(s, d)
    ensures forall q :: q in pieces ==> IsPiece(q, s, d)
    decreases |s|
  {
    if s != "" {
      var i := IndexOf(s, d);
      IndexOfFirst(s, d);
      if i < |s| {
        assert s == s[..i] + [d] + s[i + 1..];
        PiecesOf(s[i + 1..], d, Split(s[i + 1..], d));
        PiecesMore(s[..i], d, s[i + 1..], Split(s[i + 1..], d), s);
      } else {
        assert s[..i] == s && s + "" == s;
        PieceIsPiece(s, d, "", s);
      }
    }
  }

  lemma SplitPieces(s: string, d: char)
    ensures forall k :: 0 <= k < |Split(s, d)| ==> IsPiece(Split(s, d)[k], s, d)
  {
    PiecesOf(s, d, Split(s, d));
  }

  /** Two pieces and their delimiter fit into `n` characters. */
  predicate Room(pieces: seq<string>, n: nat) {
    |pieces| >= 2 ==> |pieces[0]| + 1 + |pieces[|pieces| - 1]| <= n
  }

  lemma RoomOf(first: seq<string>, rest: seq<string>, i: nat, n: nat)
    requires |first| <= 1 && (first != [] ==> |first[0]| <= i)
    requires rest != [] ==> i + 1 + |rest[|rest| - 1]| <= n
    requires |rest| >= 2 ==> |rest[0]| + 1 + |rest[|rest| - 1]| <= n
    ensures Room(first + rest, n)
  {}

  lemma {:induction false} SplitRoom(s: string, d: char, pieces: seq<string>)
    requires pieces == Split(s, d)
    ensures Room(pieces, |s|)
    decreases |s|
  {
    if s != "" {
      var i := IndexOf(s, d);
      IndexOfFirst(s, d);
      PieceIsPiece(s[..i], d, "", s[..i]);
      if i < |s| {
        var rest := Split(s[i + 1..], d);
        SplitRoom(s[i + 1..], d, rest);
        PiecesOf(s[i + 1..], d, rest);
        if rest != [] { assert IsPiece(rest[|rest| - 1], s[i + 1..], d); }
        RoomOf(Piece(s[..i]), rest, i, |s|);
      }
    }
  }

  ghost predicate AllHold(params: Fields.Params, P: (string, string) -> bool) {
    forall k, i :: k in params && 0 <= i < |params[k]| ==> P(k, params[k][i])
  }

  /** Whatever holds of all converted pairs holds of everything collected from them. */
  lemma {:induction false} CollectHolds(pieces: seq<string>, cache: set<string>, params: Fields.Params,
                                        conv: string -> string, P: (string, string) -> bool)
    requires forall q :: q in pieces ==> P(conv(KeyValue(q).0), conv(KeyValue(q).1))
    requires AllHold(params, P)
    ensures AllHold(Collect(pieces, cache, params, conv), P)
  {
    if pieces == [] {
    } else if pieces[0] in cache {
      CollectHolds(pieces[1..], cache, params, conv, P);
    } else {
      var (key, value) := KeyValue(pieces[0]);
      var params' := if key == "" then params else Emplace(params, conv(key), conv(value));
      assert pieces[0] in pieces;
      CollectHolds(pieces[1..], cache + {pieces[0]}, params', conv, P);
    }
  }

  predicate LacksDelimiters(v: string) {
    ';' !in v && '=' !in v
  }

  lemma ValuesLackDelimiters(params: string)
    ensures AllHold(DispositionPairs(params), (k, v) => LacksDelimiters(v))
  {
    var pieces := Split(params, ';');
    SplitPieces(params, ';');
    forall q | q in pieces ensures LacksDelimiters(TrimQuotes(KeyValue(q).1)) {
      SplitPieces(q, '=');
    }
    CollectHolds(pieces, {}, map[], TrimQuotes, (k, v) => LacksDelimiters(v));
  }

  // ---- The disposition line

  const FIELD: string := "Content-Disposition:"
  const FORM: string := "form-data;"

  function DispositionOf(params: string): string {
    DISPOSITION + params
  }

  lemma DispositionShape(params: string)
    ensures DispositionOf(params) == FIELD + (" " + (FORM + (" " + params)))
  {
    assert DISPOSITION == FIELD + (" " + (FORM + " "));
    AppendAssociates(FIELD, " " + (FORM + " "), params);
    AppendAssociates(" ", FORM + " ", params);
    AppendAssociates(FORM, " ", params);
  }

  lemma DispositionMatches(params: string)
    requires params != "" && !IsSpace(params[0])
    ensures DispositionParams(DispositionOf(params))
         == if '\r' in params || '\n' in params then None else Some(params)
  {
    DispositionShape(params);
    var line := DispositionOf(params);
    var rest := " " + (FORM + (" " + params));
    assert line[..|FIELD|] == FIELD && line[|FIELD|..] == rest;
    assert rest[1..] == FORM + (" " + params);
    assert SkipSpaces(rest) == rest[1..];
    assert rest[1..][..|FORM|] == FORM && rest[1..][|FORM|..] == " " + params;
    assert (" " + params)[1..] == params;
    assert SkipSpaces(" " + params) == params;
  }

  /** The shape of a line that `parse_header` accepts. */
  lemma FieldShape(line: string, name: string, rest: string)
    requires line == name + [':'] + rest && name != "" && ':' !in name
    requires TrimLeft(rest) != "" && !IsBlank(rest[|rest| - 1])
    ensures HeaderField(line).Some?
  {
    IndexOfIs(name, ':', rest);
    assert line[|line| - 1] == rest[|rest| - 1];
    assert line[|name| + 1..] == rest;
    assert RawField(line).Some?;
  }

  lemma AfterBlank(tail: string)
    requires tail != "" && !IsBlank(tail[0])
    ensures TrimLeft(" " + tail) == tail && (" " + tail)[|tail|] == tail[|tail| - 1]
  {
    assert (" " + tail)[1..] == tail;
  }

  lemma NotType(line: string)
    requires |line| >= 9 && Lower(line[8]) != 't'
    ensures !StartsWithNoCase(line, "Content-Type:")
  {
    assert LowerAll("Content-Type:")[8] == 't';
    assert |line| >= 13 ==> LowerAll(line[..13])[8] == Lower(line[8]);
  }

  lemma DispositionIsHeader(params: string)
    requires params != "" && !IsBlank(params[|params| - 1])
    ensures HeaderField(DispositionOf(params)).Some?
  {
    DispositionShape(params);
    var line := DispositionOf(params);
    var name, tail := "Content-Disposition", FORM + (" " + params);
    assert FIELD == name + [':'];
    AfterBlank(tail);
    FieldShape(line, name, " " + tail);
  }

  lemma DispositionNotType(params: string)
    ensures !StartsWithNoCase(DispositionOf(params), "Content-Type:")
  {
    assert DispositionOf(params)[8] == DISPOSITION[8] == 'D';
    NotType(DispositionOf(params));
  }

  lemma SplitConcat(a: string, d: char, b: string)
    requires d !in a
    ensures Split(a + [d] + b, d) == Piece(a) + Split(b, d)
  {
    var w := a + [d] + b;
    IndexOfIs(a, d, b);
    assert w[..|a|] == a && w[|a| + 1..] == b;
  }

  lemma QuotedParam(key: string, value: string)
    requires key != "" && Trimmed(key) && '=' !in key && key[0] != '"' && '=' !in value
    ensures KeyValue(key + "=\"" + value + "\"") == (key, "\"" + value + "\"")
    ensures TrimQuotes("\"" + value + "\"") == value && TrimQuotes(key) == key
  {
    var quoted := "\"" + value + "\"";
    assert key + "=\"" + value + "\"" == key + ['='] + quoted;
    SplitConcat(key, '=', quoted);
    TrimTrimmed(key);
    SplitLast(quoted, '=');
    TrimTrimmed(quoted);
  }

  /** A blank before a piece is trimmed away. */
  lemma PieceAfterBlank(q: string, d: char, s: string, pieces: seq<string>)
    requires q != "" && Trimmed(q) && d !in q && d != ' ' && s == " " + q && pieces == Split(s, d)
    ensures pieces == [q]
  {
    assert s[0] == ' ' && s[1..|q| + 1] == q;
    SplitLast(s, d);
    TrimIs(s, 1, |q| + 1);
  }

  function FilenamePair(p: FormData): string {
    "filename=\"" + p.filename + "\""
  }

  lemma FilenameShape(p: FormData)
    requires p.filename != ""
    ensures FilenameParam(p) == [';'] + (" " + FilenamePair(p))
  {
    var name, f := "filename=\"", p.filename;
    assert "; filename=\"" == [';'] + (" " + name);
    AppendAssociates([';'], " " + name, f);
    AppendAssociates(" ", name, f);
    AppendAssociates([';'], " " + (name + f), "\"");
    AppendAssociates(" ", name + f, "\"");
  }

  lemma NameParamIs(p: FormData)
    requires ';' !in p.name
    ensures var n := NameParam(p);
            ';' !in n && n != "" && n[0] == 'n' && n[|n| - 1] == '"' && Piece(n) == [n]
  {
    var n := NameParam(p);
    assert n[0] == 'n' && n[|n| - 1] == '"';
    TrimTrimmed(n);
  }

  lemma NamePieces(p: FormData)
    requires ';' !in p.name
    ensures Split(NameParam(p) + FilenameParam(p), ';')
         == [NameParam(p)] + if p.filename == "" then [] else Split(" " + FilenamePair(p), ';')
  {
    var n := NameParam(p);
    NameParamIs(p);
    if p.filename == "" {
      assert n + "" == n;
      SplitLast(n, ';');
    } else {
      var f := " " + FilenamePair(p);
      FilenameShape(p);
      AppendAssociates(n, [';'], f);
      SplitConcat(n, ';', f);
    }
  }

  lemma CollectOne(pieces: seq<string>, cache: set<string>, params: Fields.Params, key: string, value: string)
    requires pieces != [] && pieces[0] !in cache && KeyValue(pieces[0]) == (key, value) && key != ""
    ensures Collect(pieces, cache, params, TrimQuotes)
         == Collect(pieces[1..], cache + {pieces[0]}, Emplace(params, TrimQuotes(key), TrimQuotes(value)), TrimQuotes)
  {}

  lemma EmplaceNew(params: Fields.Params, key: string, value: string)
    requires key !in params
    ensures Emplace(params, key, value) == params[key := [value]]
  {
    assert [] + [value] == [value];
  }

  lemma FilenamePairIs(p: FormData)
    requires ParamClean(p.filename)
    ensures var q := FilenamePair(p);
            Split(" " + q, ';') == [q] && q[0] == 'f' && KeyValue(q) == ("filename", "\"" + p.filename + "\"")
  {
    var q := FilenamePair(p);
    assert q == "filename" + "=\"" + p.filename + "\"";
    assert q[0] == 'f' && q[|q| - 1] == '"';
    PieceAfterBlank(q, ';', " " + q, Split(" " + q, ';'));
    QuotedParam("filename", p.filename);
  }

  lemma NameOnly(p: FormData, pieces: seq<string>)
    requires ParamClean(p.name) && pieces != [] && pieces[0] == NameParam(p)
    ensures Collect(pieces, {}, map[], TrimQuotes)
         == Collect(pieces[1..], {NameParam(p)}, map["name" := [p.name]], TrimQuotes)
  {
    QuotedParam("name", p.name);
    assert NameParam(p) == "name" + "=\"" + p.name + "\"";
    EmplaceNew(map[], "name", p.name);
    CollectOne(pieces, {}, map[], "name", "\"" + p.name + "\"");
    assert {} + {NameParam(p)} == {NameParam(p)};
  }

  lemma CleanPairs(p: FormData)
    requires ParamClean(p.name) && ParamClean(p.filename)
    ensures DispositionPairs(NameParam(p) + FilenameParam(p))
         == if p.filename == "" then map["name" := [p.name]]
            else map["name" := [p.name], "filename" := [p.filename]]
  {
    var n, q := NameParam(p), FilenamePair(p);
    NameParamIs(p);
    NamePieces(p);
    var pieces := Split(n + FilenameParam(p), ';');
    NameOnly(p, pieces);
    if p.filename != "" {
      FilenamePairIs(p);
      assert pieces[1..] == [q];
      QuotedParam("filename", p.filename);
      EmplaceNew(map["name" := [p.name]], "filename", p.filename);
      CollectOne([q], {n}, map["name" := [p.name]], "filename", "\"" + p.filename + "\"");
    }
  }

  // ---- Which parts survive

  predicate Broken(s: string) {
    '\r' in s || '\n' in s
  }

  function ParamsOf(p: FormData): string {
    NameParam(p) + FilenameParam(p)
  }

  /** Whether a parameter list contains a line break is decided by the name and the filename. */
  lemma ParamsShape(p: FormData)
    ensures var params := ParamsOf(p);
            && params != "" && params[0] == 'n' && params[|params| - 1] == '"'
            && ('\r' in params <==> '\r' in p.name || '\r' in p.filename)
            && ('\n' in params <==> '\n' in p.name || '\n' in p.filename)
  {
    var n, f := NameParam(p), FilenameParam(p);
    assert forall c :: c == '\r' || c == '\n' ==> (c in n <==> c in p.name) && (c in f <==> c in p.filename);
    assert n[0] == 'n' && n[|n| - 1] == '"' && (f != "" ==> f[|f| - 1] == '"');
  }

  lemma LineIsDisposition(file: FormData, line: string, params: Option<string>)
    requires HeaderField(line).Some? && !StartsWithNoCase(line, "Content-Type:")
    requires DispositionParams(line) == params
    ensures ApplyLine(file, line)
         == if params == None then Some(file) else ApplyDisposition(file, DispositionPairs(params.value))
  {}

  /** A printed disposition line is applied unless a line break hides it from the pattern. */
  lemma DispositionResult(p: FormData, file: FormData)
    ensures ApplyLine(file, DispositionLine(p))
         == if Broken(p.name) || Broken(p.filename) then Some(file)
            else ApplyDisposition(file, DispositionPairs(ParamsOf(p)))
  {
    var params := ParamsOf(p);
    ParamsShape(p);
    DispositionMatches(params);
    DispositionIsHeader(params);
    DispositionNotType(params);
    LineIsDisposition(file, DispositionOf(params), DispositionParams(DispositionOf(params)));
  }

  lemma ApplyClean(p: FormData, file: FormData, pairs: Fields.Params)
    requires pairs == if p.filename == "" then map["name" := [p.name]]
                      else map["name" := [p.name], "filename" := [p.filename]]
    ensures ApplyDisposition(file, pairs)
         == Some(file.(name := p.name, filename := if p.filename == "" then file.filename else p.filename))
  {
    assert "name" != "filename" && "name" != "filename*" && "filename" != "filename*";
  }

  lemma CleanDisposition(p: FormData, file: FormData)
    requires ParamClean(p.name) && ParamClean(p.filename)
    ensures ApplyLine(file, DispositionLine(p))
         == Some(file.(name := p.name, filename := if p.filename == "" then file.filename else p.filename))
  {
    DispositionResult(p, file);
    CleanPairs(p);
    ApplyClean(p, file, DispositionPairs(ParamsOf(p)));
  }

  lemma ExtendedRoom(kv: seq<string>, key: string, value: string, n: nat)
    requires Room(kv, n) && TrimQuotes(key) == "filename*"
    requires key == (if |kv| > 0 then kv[0] else "") && value == (if |kv| > 1 then kv[|kv| - 1] else "")
    ensures TrimQuotes(value) == "" || |TrimQuotes(value)| + 10 <= n
  {
    assert |key| >= 9;
  }

  lemma ExtendedPiece(q: string, key: string, value: string)
    requires (key, value) == KeyValue(q) && TrimQuotes(key) == "filename*"
    ensures TrimQuotes(value) == "" || |TrimQuotes(value)| + 10 <= |q|
  {
    var kv := Split(q, '=');
    SplitRoom(q, '=', kv);
    ExtendedRoom(kv, key, value, |q|);
  }

  lemma NamePiece(p: FormData)
    requires LacksDelimiters(p.name)
    ensures TrimQuotes(KeyValue(NameParam(p)).0) != "filename*"
  {
    QuotedParam("name", p.name);
    assert NameParam(p) == "name" + "=\"" + p.name + "\"";
  }

  /** The parameters of a disposition whose filename is cut off, or not closed, or closed: it ends in `x`. */
  function ParamsUpTo(p: FormData, x: string): string {
    NameParam(p) + ("; filename=\"" + x)
  }

  lemma ParamsClosed(p: FormData)
    requires p.filename != ""
    ensures ParamsOf(p) == ParamsUpTo(p, p.filename + "\"")
  {
    AppendAssociates("; filename=\"", p.filename, "\"");
  }

  lemma PiecesBehind(n: string, d: char, y: string)
    requires d !in n && Piece(n) == [n]
    ensures forall q :: q in Split(n + ([d] + y), d) ==> q == n || |q| <= |y|
  {
    AppendAssociates(n, [d], y);
    SplitConcat(n, d, y);
    SplitPieces(y, d);
  }

  lemma ShortPiece(p: FormData, q: string, m: nat)
    requires LacksDelimiters(p.name) && (q == NameParam(p) || |q| <= m + 10)
    requires TrimQuotes(KeyValue(q).0) == "filename*"
    ensures |TrimQuotes(KeyValue(q).1)| <= m
  {
    NamePiece(p);
    ExtendedPiece(q, KeyValue(q).0, KeyValue(q).1);
  }

  lemma PairsShort(p: FormData, y: string, m: nat)
    requires LacksDelimiters(p.name) && |y| <= m + 10
    ensures AllHold(DispositionPairs(NameParam(p) + ([';'] + y)), (k, v) => k == "filename*" ==> |v| <= m)
  {
    var n, P := NameParam(p), (k: string, v: string) => k == "filename*" ==> |v| <= m;
    var pieces := Split(n + ([';'] + y), ';');
    NameParamIs(p);
    PiecesBehind(n, ';', y);
    forall q | q in pieces ensures P(TrimQuotes(KeyValue(q).0), TrimQuotes(KeyValue(q).1)) {
      if TrimQuotes(KeyValue(q).0) == "filename*" { ShortPiece(p, q, m); }
    }
    CollectHolds(pieces, {}, map[], TrimQuotes, P);
  }

  /** Only the parameter `filename*` can return delimiters, and it returns less than the filename. */
  lemma ExtendedIsShort(p: FormData, x: string)
    requires LacksDelimiters(p.name)
    ensures AllHold(DispositionPairs(ParamsUpTo(p, x)), (k, v) => k == "filename*" ==> |v| <= |x| + 1)
  {
    var y := " filename=\"" + x;
    assert "; filename=\"" + x == [';'] + y;
    PairsShort(p, y, |x| + 1);
  }

  /** The name and the filename come back exactly when neither contains `;`, `=`, CR or LF. */
  lemma DispositionRoundTrip(p: FormData)
    ensures ApplyLine(NO_FILE, DispositionLine(p)) == Some(NO_FILE.(name := p.name, filename := p.filename))
       <==> ParamClean(p.name) && ParamClean(p.filename)
  {
    if ParamClean(p.name) && ParamClean(p.filename) {
      CleanDisposition(p, NO_FILE);
    } else {
      DispositionResult(p, NO_FILE);
      var pairs := DispositionPairs(ParamsOf(p));
      ValuesLackDelimiters(ParamsOf(p));
      if !Broken(p.name) && !Broken(p.filename) && LacksDelimiters(p.name) {
        ParamsClosed(p);
        ExtendedIsShort(p, p.filename + "\"");
        LongFilename(p, pairs);
      }
    }
  }

  lemma LongFilename(p: FormData, pairs: Fields.Params)
    requires !LacksDelimiters(p.filename)
    requires AllHold(pairs, (k, v) => LacksDelimiters(v))
    requires AllHold(pairs, (k, v) => k == "filename*" ==> |v| <= |p.filename| + 2)
    ensures ApplyDisposition(NO_FILE, pairs) != Some(NO_FILE.(name := p.name, filename := p.filename))
  {
    if "filename*" in pairs && pairs["filename*"] != [] {
      var v := pairs["filename*"][0];
      assert |v| <= |p.filename| + 2;
      if ExtendedValue(v).Some? {
        Url.DecodeShrinks(v[7..], false);
        assert |ExtendedValue(v).value| < |p.filename|;
      }
    }
  }

  /** A content type comes back exactly when it has no blanks at its ends. */
  lemma TypeRoundTrip(contentType: string, file: FormData)
    requires contentType != ""
    ensures ApplyLine(file, "Content-Type: " + contentType) == Some(file.(contentType := contentType))
       <==> Trimmed(contentType)
  {
    var prefix, line := "Content-Type:", "Content-Type: " + contentType;
    var rest := " " + contentType;
    assert line == prefix + rest;
    assert line[..|prefix|] == prefix && line[|prefix|..] == rest;
    assert StartsWithNoCase(line, prefix);
    TrimShrinks(rest);
    if Trimmed(contentType) {
      AfterBlank(contentType);
      TrimTrimmed(contentType);
      assert prefix == "Content-Type" + [':'];
      FieldShape(line, "Content-Type", rest);
      assert Trim(rest) == contentType;
    }
  }
}
