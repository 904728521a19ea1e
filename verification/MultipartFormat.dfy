/** The multipart/form-data format (RFC 7578): its two writers and the header lines of a part. */
module MultipartFormat {
  import opened Text
  import opened Fields
  import Url

  datatype FormData = FormData(name: string, filename: string, contentType: string, content: string)

  const DASH: string := "--"
  const NO_FILE := FormData("", "", "", "")

  /** The delimiter that starts the body, and the one that ends each part. */
  function DashBoundaryCrlf(boundary: string): string {
    DASH + boundary + CRLF
  }

  function CrlfDashBoundary(boundary: string): string {
    CRLF + DASH + boundary
  }

  /** What `is_multipart_boundary_chars_valid` accepts. */
  predicate LegalBoundary(boundary: string) {
    forall i :: 0 <= i < |boundary| ==> Url.IsAlnum(boundary[i]) || boundary[i] == '-' || boundary[i] == '_'
  }

  // ---- Writing

  const DISPOSITION: string := "Content-Disposition: form-data; "

  function NameParam(p: FormData): string {
    "name=\"" + p.name + "\""
  }

  function FilenameParam(p: FormData): string {
    if p.filename == "" then "" else "; filename=\"" + p.filename + "\""
  }

  function DispositionLine(p: FormData): string {
    DISPOSITION + (NameParam(p) + FilenameParam(p))
  }

  function TypeLines(p: FormData): string {
    if p.contentType == "" then "" else "Content-Type: " + p.contentType + CRLF
  }

  /** The header lines of a part up to and including the blank line. */
  function HeaderLines(p: FormData): string {
    DispositionLine(p) + CRLF + TypeLines(p) + CRLF
  }

  function Item(p: FormData, boundary: string): string {
    DashBoundaryCrlf(boundary) + HeaderLines(p) + p.content + CRLF
  }

  function Items(parts: seq<FormData>, boundary: string): string {
    if parts == [] then "" else Item(parts[0], boundary) + Items(parts[1..], boundary)
  }

  function ClosingLine(boundary: string): string {
    DASH + boundary + DASH + CRLF
  }

  /** The whole body that both writers produce. */
  function Body(parts: seq<FormData>, boundary: string): string {
    Items(parts, boundary) + ClosingLine(boundary)
  }

  lemma ItemsStep(body: string, parts: seq<FormData>, i: nat, boundary: string)
    requires i < |parts|
    ensures body + Items(parts[i..], boundary) == body + Item(parts[i], boundary) + Items(parts[i + 1..], boundary)
  {
    assert parts[i..][1..] == parts[i + 1..];
    AppendAssociates(body, Item(parts[i], boundary), Items(parts[i + 1..], boundary));
  }

  /** Appending the pieces of an item one by one, as both writers do, appends the item. */
  lemma AppendItem(acc: string, p: FormData, boundary: string)
    ensures acc + DashBoundaryCrlf(boundary) + DISPOSITION + NameParam(p) + FilenameParam(p)
              + CRLF + TypeLines(p) + CRLF + p.content + CRLF
         == acc + Item(p, boundary)
  {
    var d, n, f := DashBoundaryCrlf(boundary), NameParam(p), FilenameParam(p);
    AppendFive(acc + d, DISPOSITION + (n + f), CRLF, TypeLines(p), CRLF, "");
    AppendAssociates(acc + d, DISPOSITION, n + f);
    AppendAssociates(acc + d + DISPOSITION, n, f);
    AppendAssociates(acc, d, HeaderLines(p));
    AppendAssociates(acc, d + HeaderLines(p), p.content);
    AppendAssociates(acc, d + HeaderLines(p) + p.content, CRLF);
  }

  lemma DispositionStart(name: string)
    ensures "Content-Disposition: form-data; name=\"" + name + "\"" == DISPOSITION + ("name=\"" + name + "\"")
  {
    assert "Content-Disposition: form-data; name=\"" == DISPOSITION + "name=\"";
    AppendAssociates(DISPOSITION, "name=\"", name);
    AppendAssociates(DISPOSITION, "name=\"" + name, "\"");
  }

  method AppendDisposition(body: string, p: FormData) returns (r: string)
    ensures r == body + DISPOSITION + NameParam(p) + FilenameParam(p) + CRLF
  {
    DispositionStart(p.name);
    AppendAssociates(body, DISPOSITION, NameParam(p));
    r := body + ("Content-Disposition: form-data; name=\"" + p.name + "\"");
    if p.filename != "" { r := r + ("; filename=\"" + p.filename + "\""); }
    r := r + "\r\n";
  }

  method AppendType(body: string, p: FormData) returns (r: string)
    ensures r == body + TypeLines(p) + CRLF
  {
    r := body;
    if p.contentType != "" { r := r + ("Content-Type: " + p.contentType + "\r\n"); }
    r := r + "\r\n";
  }

  method SerializeItemBegin(item: FormData, boundary: string) returns (body: string)
    ensures body + item.content + CRLF == Item(item, boundary)
  {
    body := "--" + boundary + "\r\n";
    AppendItem("", item, boundary);
    body := AppendDisposition(body, item);
    body := AppendType(body, item);
  }

  method AppendClosing(body: string, boundary: string) returns (r: string)
    ensures r == body + ClosingLine(boundary)
  {
    assert "--\r\n" == DASH + CRLF;
    AppendAssociates("--" + boundary, DASH, CRLF);
    r := body + ("--" + boundary + "--\r\n");
  }

  method SerializeItem(body: string, item: FormData, boundary: string) returns (r: string)
    ensures r == body + Item(item, boundary)
  {
    var begin := SerializeItemBegin(item, boundary);
    AppendThree(body, begin, item.content, CRLF);
    r := body + begin;
    r := r + (item.content + "\r\n");
  }

  /** `serialize_multipart_formdata` with `finish` set. */
  method SerializeMultipartFormdata(items: seq<FormData>, boundary: string) returns (body: string)
    ensures body == Body(items, boundary)
  {
    body := "";
    ghost var all := Items(items, boundary);
    assert items[0..] == items;
    for i := 0 to |items|
      invariant body + Items(items[i..], boundary) == all
    {
      var item := items[i];
      ItemsStep(body, items, i, boundary);
      body := SerializeItem(body, item, boundary);
    }
    assert body == all;
    body := AppendClosing(body, boundary);
  }

  /** One turn of that loop. */
  method AppendPart(body: string, part: FormData, boundary: string) returns (r: string)
    ensures r == body + Item(part, boundary)
  {
    AppendItem(body, part, boundary);
    r := body + ("--" + boundary + "\r\n");
    r := AppendDisposition(r, part);
    r := AppendType(r, part);
    r := r + part.content;
    r := r + "\r\n";
  }

  /** The loop in `Http::worker` that builds the request body from the parts of a job. */
  method BuildWorkerBody(multipart: seq<FormData>, boundary: string) returns (body: string)
    ensures body == Body(multipart, boundary)
  {
    body := "";
    ghost var all := Items(multipart, boundary);
    assert multipart[0..] == multipart;
    for i := 0 to |multipart|
      invariant body + Items(multipart[i..], boundary) == all
    {
      var part := multipart[i];
      ItemsStep(body, multipart, i, boundary);
      body := AppendPart(body, part, boundary);
    }
    assert body == all;
    body := AppendClosing(body, boundary);
  }

  // ---- Reading one header line

  /**
   The capture of the regular expression for a Content-Disposition header, matched without
   regard to case. `.` matches anything but CR and LF, so a greedy `\s*` decides the match.
   */
  function DispositionParams(line: string): Option<string> {
    var field, form := "Content-Disposition:", "form-data;";
    if !StartsWithNoCase(line, field) then None
    else
      var rest := SkipSpaces(line[|field|..]);
      if !StartsWithNoCase(rest, form) then None
      else
        var params := SkipSpaces(rest[|form|..]);
        if '\r' in params || '\n' in params then None else Some(params)
  }

  /** The value that RFC 5987 encodes, for the one supported form `UTF-8''value`. */
  function ExtendedValue(s: string): Option<string> {
    var prefix := "UTF-8''";
    if StartsWithNoCase(s, prefix) && |prefix| < |s| && '\r' !in s && '\n' !in s
    then Some(Url.Decode(s[|prefix|..], false)) else None
  }

  function DispositionPairs(params: string): Fields.Params {
    Collect(Split(params, ';'), {}, map[], TrimQuotes)
  }

  /** What the parameters of a disposition do to the current file, `None` for a malformed one. */
  function ApplyDisposition(file: FormData, params: Fields.Params): Option<FormData> {
    if "name" !in params || params["name"] == [] then None
    else
      var file := file.(name := params["name"][0]);
      var file := if "filename" in params && params["filename"] != []
                  then file.(filename := params["filename"][0]) else file;
      if "filename*" in params && params["filename*"] != [] then
        match ExtendedValue(params["filename*"][0])
        case None => None
        case Some(v) => Some(file.(filename := v))
      else Some(file)
  }

  /** The effect of one non-empty header line on the current file, `None` for a malformed one. */
  function ApplyLine(file: FormData, line: string): Option<FormData> {
    if HeaderField(line).None? then None
    else if StartsWithNoCase(line, "Content-Type:") then
      Some(file.(contentType := Trim(line[|"Content-Type:"|..])))
    else
      match DispositionParams(line)
      case None => Some(file)
      case Some(params) => ApplyDisposition(file, DispositionPairs(params))
  }

  method StartWithCaseIgnore(a: string, b: string) returns (r: bool)
    ensures r == StartsWithNoCase(a, b)
  {
    if |a| < |b| { return false; }
    for i := 0 to |b|
      invariant forall k :: 0 <= k < i ==> Lower(a[k]) == Lower(b[k])
    {
      if Lower(a[i]) != Lower(b[i]) {
        assert LowerAll(a[..|b|])[i] != LowerAll(b)[i];
        return false;
      }
    }
    return true;
  }

  method ReadHeaderLine(file: FormData, header: string) returns (r: Option<FormData>)
    ensures r == ApplyLine(file, header)
  {
    var field := ParseHeader(header);
    if field.None? { return None; }
    var isType := StartWithCaseIgnore(header, "Content-Type:");
    if isType {
      var t := TrimCopy(header[|"Content-Type:"|..]);
      return Some(file.(contentType := t));
    }
    var m := DispositionParams(header);
    if m.None? { return Some(file); }
    var params := CollectPairs(m.value, ';', TrimQuotes);
    return ApplyDisposition(file, params);
  }
}
