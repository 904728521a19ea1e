/**
 A reader for JSON texts (RFC 8259, sections 2 to 7) restricted to integer numbers, used
 as the reference for what the D-Bus plugin prints.
 */
module Json {
  import opened Numerals
  import opened Text

  datatype Json =
    | JNull
    | JBool(b: bool)
    | JNumber(n: int)
    | JString(s: string)
    | JArray(items: seq<Json>)
    | JObject(members: seq<(string, Json)>)

  /** A parsed value together with the text behind it. */
  type Parsed<+T> = Option<(T, string)>

  predicate IsWs(c: char) {
    c == ' ' || c == '\t' || c == '\n' || c == '\r'
  }

  function SkipWs(s: string): (r: string)
    ensures |r| <= |s|
  {
    if s != "" && IsWs(s[0]) then SkipWs(s[1..]) else s
  }

  /** The longest run of digits, read onto `acc`. */
  function Digits(s: string, acc: nat): (r: (nat, string))
    ensures |r.1| <= |s|
  {
    if s != "" && IsDigit(s[0]) then Digits(s[1..], 10 * acc + (s[0] as int - '0' as int)) else (acc, s)
  }

  /** A number may be followed by anything that is not part of a number. */
  predicate EndsNumber(s: string) {
    s == "" || !(IsDigit(s[0]) || s[0] == '.' || s[0] == 'e' || s[0] == 'E')
  }

  function ParseNat(s: string): (r: Parsed<nat>)
    ensures r.Some? ==> |r.value.1| < |s|
  {
    if s == "" || !IsDigit(s[0]) then None
    else
      var (n, rest) := if s[0] == '0' then (0, s[1..]) else Digits(s[1..], s[0] as int - '0' as int);
      if EndsNumber(rest) then Some((n, rest)) else None
  }

  /** The four digits behind `\u`, unless they name a surrogate. */
  function ParseUnit(s: string): (r: Parsed<char>)
    ensures r.Some? ==> |r.value.1| < |s|
  {
    if |s| < 4 || HexVal(s[0]) < 0 || HexVal(s[1]) < 0 || HexVal(s[2]) < 0 || HexVal(s[3]) < 0 then None
    else
      var n := ((HexVal(s[0]) * 16 + HexVal(s[1])) * 16 + HexVal(s[2])) * 16 + HexVal(s[3]);
      if 0xD800 <= n < 0xE000 || n >= 0x10000 then None else Some((n as char, s[4..]))
  }

  /** One character behind a backslash. */
  function ParseEscape(s: string): (r: Parsed<char>)
    ensures r.Some? ==> |r.value.1| < |s|
  {
    if s == "" then None
    else if s[0] == '"' || s[0] == '\\' || s[0] == '/' then Some((s[0], s[1..]))
    else if s[0] == 'n' then Some(('\n', s[1..]))
    else if s[0] == 'r' then Some(('\r', s[1..]))
    else if s[0] == 't' then Some(('\t', s[1..]))
    else if s[0] == 'b' then Some((8 as char, s[1..]))
    else if s[0] == 'f' then Some((12 as char, s[1..]))
    else if s[0] == 'u' then ParseUnit(s[1..])
    else None
  }

  /** A string behind its opening quotation mark. */
  function ParseString(s: string): (r: Parsed<string>)
    ensures r.Some? ==> |r.value.1| < |s|
    decreases |s|
  {
    if s == "" || s[0] < ' ' then None
    else if s[0] == '"' then Some(("", s[1..]))
    else
      var first := if s[0] == '\\' then ParseEscape(s[1..]) else Some((s[0], s[1..]));
      if first == None then None
      else
        var rest := ParseString(first.value.1);
        if rest == None then None else Some(([first.value.0] + rest.value.0, rest.value.1))
  }

  function ParseValue(s: string): (r: Parsed<Json>)
    ensures r.Some? ==> |r.value.1| < |s|
    decreases |s|, 1
  {
    var t := SkipWs(s);
    if t == "" then None
    else if t[0] == '"' then
      var r := ParseString(t[1..]);
      if r == None then None else Some((JString(r.value.0), r.value.1))
    else if t[0] == '[' then
      var u := SkipWs(t[1..]);
      if u != "" && u[0] == ']' then Some((JArray([]), u[1..]))
      else
        var r := ParseElements(t[1..]);
        if r == None then None else Some((JArray(r.value.0), r.value.1))
    else if t[0] == '{' then
      var u := SkipWs(t[1..]);
      if u != "" && u[0] == '}' then Some((JObject([]), u[1..]))
      else
        var r := ParseMembers(t[1..]);
        if r == None then None else Some((JObject(r.value.0), r.value.1))
    else if t[0] == '-' then
      var r := ParseNat(t[1..]);
      if r == None then None else var n: int := r.value.0; Some((JNumber(-n), r.value.1))
    else if IsDigit(t[0]) then
      var r := ParseNat(t);
      if r == None then None else Some((JNumber(r.value.0), r.value.1))
    else if StartsWith(t, "true") then Some((JBool(true), t[4..]))
    else if StartsWith(t, "false") then Some((JBool(false), t[5..]))
    else if StartsWith(t, "null") then Some((JNull, t[4..]))
    else None
  }

  /** One or more elements and the closing bracket. */
  function ParseElements(s: string): (r: Parsed<seq<Json>>)
    ensures r.Some? ==> |r.value.1| < |s|
    decreases |s|, 2
  {
    var first := ParseValue(s);
    if first == None then None
    else
      var t := SkipWs(first.value.1);
      if t != "" && t[0] == ']' then Some(([first.value.0], t[1..]))
      else if t != "" && t[0] == ',' then
        var rest := ParseElements(t[1..]);
        if rest == None then None else Some(([first.value.0] + rest.value.0, rest.value.1))
      else None
  }

  function ParseMember(s: string): (r: Parsed<(string, Json)>)
    ensures r.Some? ==> |r.value.1| < |s|
    decreases |s|, 2
  {
    var t := SkipWs(s);
    if t == "" || t[0] != '"' then None
    else
      var name := ParseString(t[1..]);
      if name == None then None
      else
        var u := SkipWs(name.value.1);
        if u == "" || u[0] != ':' then None
        else
          var v := ParseValue(u[1..]);
          if v == None then None else Some(((name.value.0, v.value.0), v.value.1))
  }

  /** One or more members and the closing brace. */
  function ParseMembers(s: string): (r: Parsed<seq<(string, Json)>>)
    ensures r.Some? ==> |r.value.1| < |s|
    decreases |s|, 3
  {
    var first := ParseMember(s);
    if first == None then None
    else
      var t := SkipWs(first.value.1);
      if t != "" && t[0] == '}' then Some(([first.value.0], t[1..]))
      else if t != "" && t[0] == ',' then
        var rest := ParseMembers(t[1..]);
        if rest == None then None else Some(([first.value.0] + rest.value.0, rest.value.1))
      else None
  }

  /** A JSON text is a value with nothing but whitespace behind it. */
  function Parse(s: string): Option<Json> {
    var r := ParseValue(s);
    if r.Some? && SkipWs(r.value.1) == "" then Some(r.value.0) else None
  }
}
