/** Trimming, splitting and header lines: the text helpers that the payload parsers share. */
module Fields {
  import opened Text
  import Url

  const HEADER_MAX_LENGTH := 8192

  /** `isspace` of the C locale. */
  predicate IsSpace(c: char) {
    c == ' ' || '\t' <= c <= '\r'
  }

  function SkipSpaces(s: string): string {
    if s != "" && IsSpace(s[0]) then SkipSpaces(s[1..]) else s
  }

  predicate IsBlank(c: char) {
    c == ' ' || c == '\t'
  }

  predicate AllBlank(s: string) {
    forall i :: 0 <= i < |s| ==> IsBlank(s[i])
  }

  function TrimLeft(s: string): string {
    if s != "" && IsBlank(s[0]) then TrimLeft(s[1..]) else s
  }

  function TrimRight(s: string): string {
    if s != "" && IsBlank(s[|s| - 1]) then TrimRight(s[..|s| - 1]) else s
  }

  function Trim(s: string): string {
    TrimRight(TrimLeft(s))
  }

  /** Neither end of `s` is a blank. */
  predicate Trimmed(s: string) {
    s != "" ==> !IsBlank(s[0]) && !IsBlank(s[|s| - 1])
  }

  lemma {:induction false} TrimLeftIs(s: string, l: nat)
    requires l <= |s| && AllBlank(s[..l]) && (l < |s| ==> !IsBlank(s[l]))
    ensures TrimLeft(s) == s[l..]
  {
    if l > 0 {
      assert IsBlank(s[..l][0]);
      assert s[1..][..l - 1] == s[..l][1..];
      TrimLeftIs(s[1..], l - 1);
    }
  }

  lemma {:induction false} TrimRightIs(s: string, r: nat)
    requires r <= |s| && AllBlank(s[r..]) && (r > 0 ==> !IsBlank(s[r - 1]))
    ensures TrimRight(s) == s[..r]
  {
    if r < |s| {
      assert IsBlank(s[r..][|s| - 1 - r]);
      assert s[..|s| - 1][r..] == s[r..][..|s| - 1 - r];
      TrimRightIs(s[..|s| - 1], r);
      assert s[..|s| - 1][..r] == s[..r];
    }
  }

  lemma TrimIs(s: string, l: nat, r: nat)
    requires l < r <= |s| && AllBlank(s[..l]) && AllBlank(s[r..])
    requires !IsBlank(s[l]) && !IsBlank(s[r - 1])
    ensures Trim(s) == s[l..r]
  {
    TrimLeftIs(s, l);
    assert s[l..][r - l..] == s[r..];
    TrimRightIs(s[l..], r - l);
    assert s[l..][..r - l] == s[l..r];
  }

  lemma TrimTrimmed(s: string)
    requires Trimmed(s)
    ensures Trim(s) == s
  {}

  lemma TrimBlank(s: string)
    requires AllBlank(s)
    ensures Trim(s) == "" && TrimRight(s) == ""
  {
    assert s[..|s|] == s;
    TrimLeftIs(s, |s|);
    TrimRightIs(s, 0);
  }

  /** `trim(b, e, left, right)`: the left scan is bounded by the end of `s`, not by `right`. */
  method TrimRange(s: string, left: nat, right: nat) returns (l: nat, r: nat)
    requires left <= right <= |s|
    ensures left <= l <= |s| && AllBlank(s[left..l]) && (l < |s| ==> !IsBlank(s[l]))
    ensures r <= right && AllBlank(s[r..right]) && (r > 0 ==> !IsBlank(s[r - 1]))
  {
    l, r := left, right;
    while l < |s| && IsBlank(s[l])
      invariant left <= l <= |s| && AllBlank(s[left..l])
    {
      assert s[left..l + 1] == s[left..l] + [s[l]];
      l := l + 1;
    }
    while r > 0 && IsBlank(s[r - 1])
      invariant 0 <= r <= right && AllBlank(s[r..right])
    {
      assert s[r - 1..right] == [s[r - 1]] + s[r..right];
      r := r - 1;
    }
  }

  /** The trimmed range of a piece that is delimited by non-blanks is the trimmed piece. */
  lemma TrimRangeIs(s: string, left: nat, right: nat, l: nat, r: nat)
    requires left <= right <= |s|
    requires left > 0 ==> !IsBlank(s[left - 1])
    requires right < |s| ==> !IsBlank(s[right])
    requires left <= l <= |s| && AllBlank(s[left..l]) && (l < |s| ==> !IsBlank(s[l]))
    requires r <= right && AllBlank(s[r..right]) && (r > 0 ==> !IsBlank(s[r - 1]))
    ensures Trim(s[left..right]) == if l < r then s[l..r] else ""
  {
    var p := s[left..right];
    assert forall k :: left <= k < l ==> s[k] == s[left..l][k - left];
    assert forall k :: r <= k < right ==> s[k] == s[r..right][k - r];
    assert l <= right;
    assert left <= r;
    if l < r {
      TrimIs(p, l - left, r - left);
      SliceOfSlice(s, left, right, l, r);
    } else {
      TrimBlank(p);
    }
  }

  method TrimCopy(s: string) returns (t: string)
    ensures t == Trim(s)
  {
    var l, r := TrimRange(s, 0, |s|);
    TrimRangeIs(s, 0, |s|, l, r);
    assert s[0..|s|] == s;
    // An all-blank text gives r < l, and `substr` from the end is empty.
    t := if l < r then s[l..r] else "";
  }

  function TrimQuotes(s: string): string {
    if |s| >= 2 && s[0] == '"' && s[|s| - 1] == '"' then s[1..|s| - 1] else s
  }

  /** The non-empty trimmed pieces of `s` between delimiters. */
  function Split(s: string, d: char): seq<string>
    decreases |s|
  {
    if s == "" then []
    else
      var i := IndexOf(s, d);
      Piece(s[..i]) + (if i < |s| then Split(s[i + 1..], d) else [])
  }

  function Piece(s: string): seq<string> {
    if Trim(s) == "" then [] else [Trim(s)]
  }

  /** `Split` by positions: `beg` is the start of the current piece and `i` the scan position. */
  ghost function SplitScan(s: string, d: char, beg: nat, i: nat): seq<string>
    requires beg <= i <= |s|
    decreases |s| - i
  {
    if i == |s| then Piece(s[beg..])
    else if s[i] == d then Piece(s[beg..i]) + SplitScan(s, d, i + 1, i + 1)
    else SplitScan(s, d, beg, i + 1)
  }

  lemma {:induction false} SplitScanIsSplit(s: string, d: char, beg: nat, i: nat)
    requires beg <= i <= |s| && forall k :: beg <= k < i ==> s[k] != d
    ensures SplitScan(s, d, beg, i) == Split(s[beg..], d)
    decreases |s| - i
  {
    if i == |s| {
      SplitLast(s[beg..], d);
    } else if s[i] == d {
      SplitAt(s, beg, i, d);
      SplitScanIsSplit(s, d, i + 1, i + 1);
    } else {
      SplitScanIsSplit(s, d, beg, i + 1);
    }
  }

  /** The piece that `split` reports, if any, for a range between delimiters. */
  method TrimPiece(s: string, beg: nat, end: nat) returns (piece: seq<string>)
    requires beg <= end <= |s|
    requires beg > 0 ==> !IsBlank(s[beg - 1])
    requires end < |s| ==> !IsBlank(s[end])
    ensures piece == Piece(s[beg..end])
  {
    var l, r := TrimRange(s, beg, end);
    TrimRangeIs(s, beg, end, l, r);
    piece := if l < r then [s[l..r]] else [];
  }

  method SplitText(s: string, d: char) returns (pieces: seq<string>)
    requires !IsBlank(d)
    ensures pieces == Split(s, d)
  {
    pieces := [];
    var i, beg := 0, 0;
    while i < |s|
      invariant 0 <= beg <= i <= |s|
      invariant beg > 0 ==> s[beg - 1] == d
      invariant pieces + SplitScan(s, d, beg, i) == SplitScan(s, d, 0, 0)
    {
      if s[i] == d {
        var piece := TrimPiece(s, beg, i);
        pieces := pieces + piece;
        beg := i + 1;
      }
      i := i + 1;
    }
    if i > 0 {
      var piece := TrimPiece(s, beg, i);
      assert s[beg..i] == s[beg..];
      pieces := pieces + piece;
    }
    SplitScanIsSplit(s, d, 0, 0);
    assert s[0..] == s;
  }

  lemma SplitAt(s: string, beg: nat, i: nat, d: char)
    requires beg <= i < |s| && s[i] == d && forall k :: beg <= k < i ==> s[k] != d
    ensures Split(s[beg..], d)
         == Piece(s[beg..i]) + Split(s[i + 1..], d)
  {
    var p, q, w := s[beg..i], s[i + 1..], s[beg..];
    assert w == p + [d] + q;
    IndexOfIs(p, d, q);
    assert w[..|p|] == p && w[|p| + 1..] == q;
  }

  lemma SplitLast(s: string, d: char)
    requires d !in s
    ensures Split(s, d) == Piece(s)
  {
    IndexOfIs(s, d, "");
    assert s[..|s|] == s;
    TrimBlank("");
  }

  /** A `std::multimap`: the values of each key in insertion order. */
  type Params = map<string, seq<string>>

  function Emplace(m: Params, key: string, value: string): Params {
    m[key := (if key in m then m[key] else []) + [value]]
  }

  function KeyValue(piece: string): (string, string) {
    var kv := Split(piece, '=');
    (if |kv| > 0 then kv[0] else "", if |kv| > 1 then kv[|kv| - 1] else "")
  }

  /**
   What the bodies of `parse_disposition_params` and `parse_query_text` do to the
   pieces: repeats of a whole piece are dropped, and `conv` is applied to key and value.
   */
  function Collect(pieces: seq<string>, cache: set<string>, params: Params, conv: string -> string): Params {
    if pieces == [] then params
    else if pieces[0] in cache then Collect(pieces[1..], cache, params, conv)
    else
      var (key, value) := KeyValue(pieces[0]);
      var params' := if key == "" then params else Emplace(params, conv(key), conv(value));
      Collect(pieces[1..], cache + {pieces[0]}, params', conv)
  }

  method CollectPairs(s: string, d: char, conv: string -> string) returns (params: Params)
    requires !IsBlank(d)
    ensures params == Collect(Split(s, d), {}, map[], conv)
  {
    var pieces := SplitText(s, d);
    params := map[];
    var cache: set<string> := {};
    for i := 0 to |pieces|
      invariant Collect(pieces[i..], cache, params, conv) == Collect(pieces, {}, map[], conv)
    {
      assert pieces[i..][1..] == pieces[i + 1..];
      var kv := pieces[i];
      if kv !in cache {
        cache := cache + {kv};
        var parts := SplitText(kv, '=');
        var key, val := "", "";
        for j := 0 to |parts|
          invariant key == if j == 0 then "" else parts[0]
          invariant val == if j < 2 then "" else parts[j - 1]
        {
          SplitNonEmpty(kv, '=');
          if key == "" { key := parts[j]; } else { val := parts[j]; }
        }
        if key != "" { params := Emplace(params, conv(key), conv(val)); }
      }
    }
  }

  lemma {:induction false} SplitNonEmpty(s: string, d: char)
    ensures forall k :: 0 <= k < |Split(s, d)| ==> Split(s, d)[k] != ""
    decreases |s|
  {
    if s != "" && IndexOf(s, d) < |s| { SplitNonEmpty(s[IndexOf(s, d) + 1..], d); }
  }

  /** The key and the undecoded value of a header line, or `None` where `parse_header` returns false. */
  function RawField(line: string): Option<(string, string)> {
    var t := TrimRight(line);
    var colon := IndexOf(t, ':');
    if colon == |t| then None
    else
      var value := TrimLeft(t[colon + 1..]);
      if value == "" || colon == 0 then None else Some((t[..colon], value))
  }

  /** All values but that of `Location` are percent-decoded. */
  function HeaderField(line: string): Option<(string, string)> {
    match RawField(line)
    case None => None
    case Some((key, value)) =>
      Some((key, if LowerAll(key) == LowerAll("Location") then value else Url.Decode(value, false)))
  }

  method TrimmedEnd(line: string) returns (end: nat)
    ensures end <= |line| && line[..end] == TrimRight(line)
  {
    end := |line|;
    assert line[..end] == line;
    while 0 < end && IsBlank(line[end - 1])
      invariant 0 <= end <= |line| && TrimRight(line[..end]) == TrimRight(line)
    {
      assert line[..end][..end - 1] == line[..end - 1];
      end := end - 1;
    }
  }

  method SkipBlanks(t: string, start: nat) returns (p: nat)
    requires start <= |t|
    ensures start <= p <= |t| && t[p..] == TrimLeft(t[start..])
  {
    p := start;
    while p < |t| && IsBlank(t[p])
      invariant start <= p <= |t| && TrimLeft(t[start..]) == TrimLeft(t[p..])
    {
      assert t[p..][1..] == t[p + 1..];
      p := p + 1;
    }
  }

  /** The scanning part of `parse_header`. */
  method ScanHeader(line: string) returns (field: Option<(string, string)>)
    ensures field == RawField(line)
  {
    var end := TrimmedEnd(line);
    var t := line[..end];
    var colon := 0;
    while colon < end && t[colon] != ':'
      invariant 0 <= colon <= end && IndexOf(t, ':') == colon + IndexOf(t[colon..], ':')
    {
      assert t[colon..][1..] == t[colon + 1..];
      colon := colon + 1;
    }
    if colon == end { return None; }
    var p := SkipBlanks(t, colon + 1);
    if p < end && colon != 0 {
      return Some((t[..colon], t[p..]));
    }
    return None;
  }

  method ParseHeader(line: string) returns (field: Option<(string, string)>)
    ensures field == HeaderField(line)
  {
    field := ScanHeader(line);
    if field.Some? && LowerAll(field.value.0) != LowerAll("Location") {
      var value := Url.DecodeUrl(field.value.1, false);
      field := Some((field.value.0, value));
    }
  }
}
