/** The capability-control protocol: the client's request bytes, the server's strict reading of them,
    the server's reply and the client's strict reading of that. */
module ControlWire {
  import opened Text
  import opened Json
  import Base64
  import Capability
  import EgressPolicy

  const MAX_HEADER := 16384
  const MAX_BODY := 512
  const MAX_RESPONSE_HEADER := 1024
  const ISSUE_BODY_LENGTH := 60

  // ---- lines and the end of a header ------------------------------------------------------------------

  function CRLF(): string { ['\r', '\n'] }

  function Marker(): string { ['\r', '\n', '\r', '\n'] }

  predicate NoCR(s: string) { forall i :: 0 <= i < |s| ==> s[i] != '\r' }

  /** bytes.Split on CR LF. */
  function SplitLines(s: string): (lines: seq<string>)
    ensures lines != []
  {
    if s == "" then [""]
    else if |s| >= 2 && s[0] == '\r' && s[1] == '\n' then [""] + SplitLines(s[2..])
    else var lines := SplitLines(s[1..]); [[s[0]] + lines[0]] + lines[1..]
  }

  predicate MarkedAt(s: string, n: nat) { 4 <= n <= |s| && s[n - 4..n] == Marker() }

  /** The end of the first empty line. */
  function FirstMarker(s: string): (r: Option<nat>)
    ensures r.Some? ==> MarkedAt(s, r.value) && forall m: nat :: MarkedAt(s, m) ==> r.value <= m
    ensures r.None? ==> forall m: nat :: !MarkedAt(s, m)
  {
    if |s| < 4 then None
    else if s[..4] == Marker() then Some(4)
    else
      NotYetMarked(s);
      match FirstMarker(s[1..])
      case None => None
      case Some(n) =>
        assert s[1..][n - 4..n] == s[n - 3..n + 1];
        Some(n + 1)
  }

  lemma NotYetMarked(s: string)
    requires |s| >= 4 && s[..4] != Marker()
    ensures forall m: nat :: MarkedAt(s, m) ==> m > 0 && MarkedAt(s[1..], m - 1)
  {
    assert s[0..4] == s[..4];
    forall m: nat | MarkedAt(s, m) ensures m > 4 && MarkedAt(s[1..], m - 1) {
      assert s[1..][m - 5..m - 1] == s[m - 4..m];
    }
  }

  /** Where the header of a stream ends, if it does within the limit. */
  function HeaderEnd(stream: string): Option<nat> {
    match FirstMarker(stream)
    case None => None
    case Some(n) => if n <= MAX_HEADER then Some(n) else None
  }

  /** readInitialHeader takes one byte at a time and stops right after the empty line. */
  method ReadInitialHeader(stream: string) returns (header: Option<string>, rest: string)
    ensures match HeaderEnd(stream)
            case None => header == None
            case Some(n) => header == Some(stream[..n]) && rest == stream[n..]
  {
    var data := "";
    while |data| < MAX_HEADER
      invariant |data| <= |stream| && |data| <= MAX_HEADER && data == stream[..|data|]
      invariant forall m: nat :: m <= |data| ==> !MarkedAt(stream, m)
      decreases MAX_HEADER - |data|
    {
      if |data| == |stream| { return None, ""; }
      data := data + [stream[|data|]];
      if |data| >= 4 && data[|data| - 4..] == Marker() {
        assert stream[|data| - 4..|data|] == data[|data| - 4..];
        assert data == stream[..|data|] && MarkedAt(stream, |data|);
        return Some(data), stream[|data|..];
      }
      assert forall m: nat :: MarkedAt(stream, m) && m == |data| ==> stream[m - 4..m] == data[|data| - 4..];
    }
    return None, "";
  }

  // ---- the server's reading of a header -------------------------------------------------------------------

  datatype Kind = ProxyCA | IssueKind | RevokeKind(handle: string)

  predicate HeaderBytes(s: string) { forall i :: 0 <= i < |s| ==> ' ' <= s[i] <= '~' }

  predicate TokenChar(c: char) {
    AlphaNumeric(c) || c in {'!', '#', '$', '%', '&', '\'', '*', '+', '-', '.', '^', '_', '`', '|', '~'}
  }

  predicate HeaderToken(s: string) { s != "" && forall i :: 0 <= i < |s| ==> TokenChar(s[i]) }

  /** A field line: token, colon, one space, and a value with no outer space. */
  function FieldOf(raw: string): Option<(string, string)> {
    if raw == "" || !HeaderBytes(raw) then None
    else
      var colon := EgressPolicy.IndexOf(raw, {':'});
      if colon == 0 || colon + 2 > |raw| || !HeaderToken(raw[..colon]) || raw[colon + 1] != ' ' then None
      else
        var value := raw[colon + 2..];
        if value == "" || value[0] == ' ' || value[|value| - 1] == ' ' then None else Some((raw[..colon], value))
  }

  /** canonicalContentLength: at most three digits with no leading zero. */
  function CanonicalLength(value: string): Option<nat> {
    if value == "" || |value| > 3 || (|value| > 1 && value[0] == '0') || !AllDigits(value) then
      None
    else Some(DecimalValue(value))
  }

  datatype Seen = Seen(length: Option<nat>, contentType: bool)

  function NextField(kind: Kind, seen: Seen, raw: string): Option<Seen> {
    var (name, value) :- FieldOf(raw);
    if Lower(name) == "content-length" then
      if seen.length.Some? then None
      else var n :- CanonicalLength(value); Some(seen.(length := Some(n)))
    else if Lower(name) == "content-type" then
      if seen.contentType || !kind.IssueKind? || value != "application/json" then
        None
      else Some(seen.(contentType := true))
    else None
  }

  /** What the first n field lines say. */
  function ReadFields(kind: Kind, lines: seq<string>, n: nat): Option<Seen>
    requires n <= |lines|
  {
    if n == 0 then Some(Seen(None, false)) else
    var seen :- ReadFields(kind, lines, n - 1);
    NextField(kind, seen, lines[n - 1])
  }

  lemma {:induction false} RefusedFields(kind: Kind, lines: seq<string>, n: nat)
    requires n <= |lines| && ReadFields(kind, lines, n).None?
    ensures ReadFields(kind, lines, |lines|).None?
    decreases |lines| - n
  {
    hide NextField;
    if n < |lines| {
      assert ReadFields(kind, lines, n + 1).None?;
      RefusedFields(kind, lines, n + 1);
    }
  }

  method ReadAllFields(kind: Kind, lines: seq<string>) returns (r: Option<Seen>)
    ensures r == ReadFields(kind, lines, |lines|)
  {
    hide FieldOf, CanonicalLength;
    var seen := Seen(None, false);
    for i := 0 to |lines|
      invariant ReadFields(kind, lines, i) == Some(seen)
    {
      var next := NextField(kind, seen, lines[i]);
      if next.None? {
        RefusedFields(kind, lines, i + 1);
        return None;
      }
      seen := next.value;
    }
    r := Some(seen);
  }

  function ProxyCALine(): string { "GET /v1/proxy-ca HTTP/1.1" }
  function ProxyCARequest(): string { ProxyCALine() + (CRLF() + (LengthField(0) + Marker())) }
  function IssueLine(): string { "POST /v1/capabilities HTTP/1.1" }
  function RevokePrefix(): string { "DELETE /v1/capabilities/" }
  function RevokeSuffix(): string { " HTTP/1.1" }

  function RequestKind(line: string): Option<Kind> {
    if line == IssueLine() then Some(IssueKind)
    else if Base64.HasPrefix(line, RevokePrefix()) && EgressPolicy.TrimSuffix(line, RevokeSuffix()) != line then
      var path := EgressPolicy.TrimSuffix(line[|RevokePrefix()|..], RevokeSuffix());
      if '/' in path || '?' in path || '#' in path || !Base64.CanonicalHandle(path) then
        None
      else Some(RevokeKind(path))
    else None
  }

  function ParseHeader(header: string): Option<(Kind, nat)> {
    if header == ProxyCARequest() then Some((ProxyCA, 0))
    else
      var lines := SplitLines(header);
      var n := |lines|;
      if n < 4 || lines[n - 1] != "" || lines[n - 2] != "" then None
      else
        var kind :- RequestKind(lines[0]);
        var seen :- ReadFields(kind, lines[1..n - 2], n - 3);
        var length :- seen.length;
        if kind.IssueKind? then if seen.contentType && 1 <= length <= MAX_BODY then Some((kind, length)) else None
        else if !seen.contentType && length == 0 then Some((kind, 0)) else None
  }

  // ---- the server's reading of an issue body ----------------------------------------------------------------

  predicate WantedKey(key: string) { key == "provider" || key == "repository" || key == "operation" }

  /** The fields in order: known names, once each, with non-empty text. */
  function Collect(fields: Fields, values: map<string, string>): Option<map<string, string>> {
    match fields
    case NoFields => Some(values)
    case Field(key, value, more) =>
      if !WantedKey(key) || key in values || !value.Str? || value.text == "" then None
      else Collect(more, values[key := value.text])
  }

  method CollectLoop(fields: Fields) returns (r: Option<map<string, string>>)
    ensures r == Collect(fields, map[])
  {
    hide WantedKey;
    var values: map<string, string> := map[];
    var left := fields;
    while left.Field?
      invariant Collect(left, values) == Collect(fields, map[])
      decreases left
    {
      if !WantedKey(left.key) || left.key in values || !left.value.Str? || left.value.text == "" { return None; }
      values, left := values[left.key := left.value.text], left.more;
    }
    r := Some(values);
  }

  datatype Wanted = Wanted(provider: string, repository: string, operation: string)

  function Chosen(values: map<string, string>): Option<Wanted> {
    if "provider" !in values then None
    else if values["provider"] == "github" then
      if "repository" !in values then None
      else if "operation" !in values then
        (if |values| == 2 then Some(Wanted("github", values["repository"], "")) else None)
      else if values["operation"] == "github-git-read" && |values| == 3 then
        Some(Wanted("github", values["repository"], "github-git-read"))
      else None
    else if values["provider"] == "openai" then
      if "repository" !in values && "operation" !in values && |values| == 1 then
        Some(Wanted("openai", "", ""))
      else None
    else None
  }

  function DecodeIssueBody(body: string): Option<Wanted> {
    if body == "" || |body| > MAX_BODY || !EgressPolicy.ValidUTF8(body) then None
    else
      match Decode(body)
      case Some(Obj(fields)) =>
        var values :- Collect(fields, map[]);
        Chosen(values)
      case _ => None
  }

  datatype Control = GiveProxyCA | Issue(wanted: Wanted) | Revoke(handle: string)

  predicate IsConnect(header: string) { Base64.HasPrefix(header, "CONNECT ") }

  /** All the server reads of a control connection; one byte too many refuses it. */
  function ServerReads(stream: string): Option<Control> {
    var n :- HeaderEnd(stream);
    if IsConnect(stream[..n]) then None
    else
      var (kind, length) :- ParseHeader(stream[..n]);
      var body := stream[n..];
      if |body| != length then None
      else match kind
           case ProxyCA => Some(GiveProxyCA)
           case RevokeKind(handle) => Some(Revoke(handle))
           case IssueKind => var wanted :- DecodeIssueBody(body); Some(Issue(wanted))
  }

  // ---- the client's bytes --------------------------------------------------------------------------------

  function BodyStart(): string { "{\"provider\":\"github\",\"repository\":\"" }

  function BodyEnd(): string { "\",\"operation\":\"github-git-read\"}" }

  function GitBody(repository: string): string {
    BodyStart() + repository + BodyEnd()
  }

  function RestBody(repository: string): string { BodyStart() + repository + "\"}" }

  function OpenAIBody(): string { "{\"provider\":\"openai\"}" }

  function LengthField(n: nat): string { "Content-Length: " + Decimal(n) }

  function TypeField(): string { "Content-Type: application/json" }

  function IssueBytes(body: string): string {
    IssueLine() + (CRLF() + (LengthField(|body|) + (CRLF() + (TypeField() + (Marker() + body)))))
  }

  function RevokeLine(handle: string): string { RevokePrefix() + handle + RevokeSuffix() }

  function RevokeBytes(handle: string): string {
    RevokeLine(handle) + (CRLF() + (LengthField(0) + Marker()))
  }

  // ---- lines are found again ---------------------------------------------------------------------------------

  lemma {:induction false} LinesOfLine(a: string, rest: string)
    requires NoCR(a)
    ensures SplitLines(a + (CRLF() + rest)) == [a] + SplitLines(rest)
  {
    var s := a + (CRLF() + rest);
    if a == "" {
      assert s == CRLF() + rest && s[2..] == rest;
    } else {
      LinesOfLine(a[1..], rest);
      assert s[1..] == a[1..] + (CRLF() + rest);
      assert [a[0]] + a[1..] == a;
    }
  }

  /** A line that is followed by a non-empty line holds no end of header. */
  lemma {:induction false} MarkerAfterLine(a: string, rest: string)
    requires NoCR(a) && rest != "" && rest[0] != '\r'
    ensures FirstMarker(a + (CRLF() + rest)) == match FirstMarker(rest)
       case None => None
       case Some(n) => Some(|a| + 2 + n)
  {
    hide FirstMarker;
    var s := a + (CRLF() + rest);
    if a == "" {
      assert s[2] == rest[0];
      MarkerStep(s);
      assert s[1..] == ['\n'] + rest;
      MarkerStep(s[1..]);
      assert s[1..][1..] == rest;
    } else {
      MarkerAfterLine(a[1..], rest);
      assert s[1..] == a[1..] + (CRLF() + rest);
      MarkerStep(s);
    }
  }

  /** A text that does not start with the empty line is searched from its second character. */
  lemma MarkerStep(s: string)
    requires s != "" && (s[0] != '\r' || (|s| >= 3 && s[2] != '\r'))
    ensures FirstMarker(s) == match FirstMarker(s[1..]) case None => None case Some(n) => Some(n + 1)
  {
    if |s| >= 4 { assert s[..4][0] == s[0] && s[..4][2] == s[2]; }
  }

  lemma {:induction false} MarkerAtEnd(a: string, body: string)
    requires NoCR(a)
    ensures FirstMarker(a + (Marker() + body)) == Some(|a| + 4)
  {
    var s := a + (Marker() + body);
    if a == "" {
      assert s[..4] == Marker();
    } else {
      MarkerAtEnd(a[1..], body);
      assert s[1..] == a[1..] + (Marker() + body);
      MarkerStep(s);
    }
  }

  lemma LastLines(a: string)
    requires NoCR(a)
    ensures SplitLines(a + Marker()) == [a, "", ""]
  {
    hide SplitLines;
    assert a + Marker() == a + (CRLF() + (CRLF() + ""));
    LinesOfLine(a, CRLF() + "");
    assert CRLF() + "" == "" + (CRLF() + "");
    LinesOfLine("", "");
    NoLine();
  }

  lemma NoLine()
    ensures SplitLines("") == [""]
  {
  }

  // ---- fields are found again -----------------------------------------------------------------------------------

  lemma IndexAfter(a: string, c: char, rest: string)
    requires c !in a
    ensures EgressPolicy.IndexOf(a + ([c] + rest), {c}) == |a|
  {
    EgressPolicy.FirstAt(a + ([c] + rest), {c}, |a|);
  }

  lemma TokenText(name: string)
    requires HeaderToken(name)
    ensures HeaderBytes(name) && ':' !in name
  {
  }

  lemma FieldFound(name: string, value: string)
    requires HeaderToken(name) && HeaderBytes(value) && value != "" && value[0] != ' ' && value[|value| - 1] != ' '
    ensures FieldOf(name + (": " + value)) == Some((name, value))
  {
    hide TokenChar, HeaderBytes, EgressPolicy.IndexOf;
    var raw := name + (": " + value);
    assert raw == name + ([':'] + (" " + value));
    TokenText(name);
    IndexAfter(name, ':', " " + value);
    assert HeaderBytes(raw) by { SeparatorText(); BytesJoined(name, ": ", value); assert name + ": " + value == raw; }
    assert raw[..|name|] == name && raw[|name| + 2..] == value && raw[|name| + 1] == ' ';
  }

  lemma SeparatorText()
    ensures HeaderBytes(": ")
  {
  }

  lemma LengthFieldFound(n: nat)
    ensures FieldOf(LengthField(n)) == Some(("Content-Length", Decimal(n))) && NoCR(LengthField(n))
      && LengthField(n) != ""
  {
    hide Decimal, FieldOf;
    var name, value := "Content-Length", Decimal(n);
    assert LengthField(n) == name + (": " + value);
    FieldFound(name, value);
  }

  lemma TypeFieldFound()
    ensures FieldOf(TypeField()) == Some(("Content-Type", "application/json")) && NoCR(TypeField()) && TypeField() != ""
  {
    hide FieldOf;
    hide HeaderToken, HeaderBytes, NoCR;
    TypeFieldTexts();
    FieldFound("Content-Type", "application/json");
  }

  lemma TypeFieldTexts()
    ensures HeaderToken("Content-Type") && HeaderBytes("application/json")
    ensures TypeField() == "Content-Type" + (": " + "application/json") && NoCR(TypeField())
  {
    hide HeaderToken, HeaderBytes, NoCR, TypeField;
    TypeName();
    TypeValue();
    TypeLine();
  }

  lemma TypeName()
    ensures HeaderToken("Content-Type")
  {
  }

  lemma TypeValue()
    ensures HeaderBytes("application/json")
  {
  }

  lemma TypeLine()
    ensures TypeField() == "Content-Type" + (": " + "application/json") && NoCR(TypeField())
  {
  }

  lemma FieldNames()
    ensures Lower("Content-Length") == "content-length" && Lower("Content-Type") == "content-type"
      && "content-length" != "content-type"
  {
    assert |"content-length"| == 14 && |"content-type"| == 12;
  }

  lemma LengthRead(n: nat)
    ensures CanonicalLength(Decimal(n)) == if n < 1000 then Some(n) else None
  {
    DecimalValueOfDecimal(n);
    PowersOfTen();
    if n < 1000 { DecimalLength(n, 3); } else if |Decimal(n)| <= 3 { ShortNumeral(Decimal(n)); }
  }

  lemma {:induction false} ShortNumeral(s: string)
    requires AllDigits(s) && |s| <= 3
    ensures DecimalValue(s) < 1000
  {
    assert |s| > 0 ==> DecimalValue(s) == DecimalValue(s[..|s| - 1]) * 10 + DigitValue(s[|s| - 1]);
    if |s| > 1 {
      var t := s[..|s| - 1];
      assert DecimalValue(t) == DecimalValue(t[..|t| - 1]) * 10 + DigitValue(t[|t| - 1]);
      if |t| > 1 {
        var u := t[..|t| - 1];
        assert DecimalValue(u) == DecimalValue(u[..|u| - 1]) * 10 + DigitValue(u[|u| - 1]);
        assert u[..0] == "";
      }
    }
  }

  // ---- the server recovers the client's header ------------------------------------------------------------------

  function IssueHeader(n: nat): string {
    IssueLine() + (CRLF() + (LengthField(n) + (CRLF() + (TypeField() + Marker()))))
  }

  lemma PlainLines()
    ensures NoCR(IssueLine()) && IssueLine() != "" && NoCR(RevokePrefix()) && NoCR(RevokeSuffix())
    ensures IssueLine()[0] == 'P' && TypeField()[0] == 'C' && RevokePrefix()[0] == 'D'
  {
  }

  lemma IssueHeaderLines(n: nat)
    ensures SplitLines(IssueHeader(n)) == [IssueLine(), LengthField(n), TypeField(), "", ""]
  {
    hide SplitLines, LengthField, TypeField, IssueLine;
    PlainLines();
    LengthFieldFound(n);
    TypeFieldFound();
    LinesOfLine(IssueLine(), LengthField(n) + (CRLF() + (TypeField() + Marker())));
    LinesOfLine(LengthField(n), TypeField() + Marker());
    LastLines(TypeField());
  }

  lemma IssueKindFound()
    ensures RequestKind(IssueLine()) == Some(IssueKind)
  {
  }

  lemma IssueFieldsRead(n: nat)
    ensures ReadFields(IssueKind, [LengthField(n), TypeField()], 2) == if n < 1000 then Some(Seen(Some(n), true))
      else None
  {
    hide FieldOf, LengthField, TypeField, Lower, CanonicalLength;
    var lines := [LengthField(n), TypeField()];
    LengthFieldFound(n);
    TypeFieldFound();
    FieldNames();
    LengthRead(n);
    assert ReadFields(IssueKind, lines, 0) == Some(Seen(None, false));
    assert ReadFields(IssueKind, lines, 1) == if n < 1000 then Some(Seen(Some(n), false)) else None;
  }

  lemma NotTheProxyRequest(header: string)
    requires header != "" && header[0] != 'G'
    ensures header != ProxyCARequest()
  {
    hide LengthField;
    assert ProxyCALine()[0] == 'G';
  }

  lemma NotConnectHeader(header: string)
    requires header != "" && header[0] != 'C'
    ensures !IsConnect(header)
  {
    assert "CONNECT "[0] == 'C';
    assert header[..|header|] == header;
  }

  lemma IssueHeaderParsed(n: nat)
    ensures ParseHeader(IssueHeader(n)) == if 1 <= n <= MAX_BODY then Some((IssueKind, n)) else None
  {
    hide SplitLines, LengthField, TypeField, IssueLine, RequestKind, ReadFields, ProxyCARequest;
    var header := IssueHeader(n);
    PlainLines();
    assert header[0] == IssueLine()[0];
    NotTheProxyRequest(header);
    IssueHeaderLines(n);
    IssueKindFound();
    IssueFieldsRead(n);
    assert SplitLines(header)[1..3] == [LengthField(n), TypeField()];
  }

  lemma IssueHeaderFound(body: string)
    ensures FirstMarker(IssueBytes(body)) == Some(|IssueHeader(|body|)|)
    ensures IssueBytes(body) == IssueHeader(|body|) + body
    ensures |IssueHeader(|body|)| == 30 + 2 + |LengthField(|body|)| + 2 + 30 + 4
  {
    hide FirstMarker, LengthField, IssueLine, TypeField, IssueHeader, IssueBytes, NoCR, FieldOf;
    var n := |body|;
    IssueBytesJoined(body);
    PlainLines();
    LengthFieldFound(n);
    TypeFieldFound();
    LengthStart(n);
    MarkerAfterLine(IssueLine(), LengthField(n) + (CRLF() + (TypeField() + (Marker() + body))));
    MarkerAfterLine(LengthField(n), TypeField() + (Marker() + body));
    MarkerAtEnd(TypeField(), body);
    LineLengths();
  }

  lemma IssueBytesJoined(body: string)
    ensures IssueBytes(body) == IssueHeader(|body|) + body
    ensures IssueBytes(body)
         == IssueLine() + (CRLF() + (LengthField(|body|) + (CRLF() + (TypeField() + (Marker() + body)))))
    ensures |IssueHeader(|body|)| == |IssueLine()| + 2 + |LengthField(|body|)| + 2 + |TypeField()| + 4
  {
    hide IssueLine, LengthField, TypeField;
  }

  lemma LineLengths()
    ensures |IssueLine()| == 30 && |TypeField()| == 30
  {
  }

  lemma LengthStart(n: nat)
    ensures LengthField(n)[0] == 'C' && |LengthField(n)| == 16 + |Decimal(n)|
  {
  }

  /** The server reads an issue request of the client exactly when its body is within the limit and
      decodes. */
  lemma IssueRead(body: string)
    ensures ServerReads(IssueBytes(body)) ==
            if 1 <= |body| <= MAX_BODY && DecodeIssueBody(body).Some? then
              Some(Issue(DecodeIssueBody(body).value))
            else None
  {
    hide FirstMarker, LengthField, IssueLine, TypeField, ParseHeader, IssueHeader, IssueBytes, DecodeIssueBody, CRLF,
      Marker;
    var n, header := |body|, IssueHeader(|body|);
    IssueHeaderFound(body);
    IssueHeaderParsed(n);
    NotConnect(n);
    LengthStart(n);
    if n <= MAX_BODY {
      PowersOfTen();
      DecimalLength(n, 3);
    }
    assert IssueBytes(body)[..|header|] == header && IssueBytes(body)[|header|..] == body;
  }

  lemma NotConnect(n: nat)
    ensures !IsConnect(IssueHeader(n))
  {
    hide LengthField, TypeField;
    PlainLines();
    assert IssueHeader(n)[0] == IssueLine()[0];
    NotConnectHeader(IssueHeader(n));
  }

  // ---- the server recovers the client's body ---------------------------------------------------------------------

  lemma PlainRepository(r: string)
    requires RepositoryName(r)
    ensures Plain(r) && r != "" && EgressPolicy.ValidUTF8(r) && forall i :: 0 <= i < |r| ==> ' ' <= r[i] <= '~'
  {
    hide EgressPolicy.ValidUTF8, RepositoryPart, RepositoryName;
    var owner, name := EgressPolicy.RepositoryParts(r);
    PartPlain(owner);
    PartPlain(name);
    SlashPlain();
    PlainJoined(owner, "/");
    PlainJoined(owner + "/", name);
    AsciiIsUTF8(r);
  }

  predicate PrintablePlain(s: string) {
    forall i :: 0 <= i < |s| ==> ' ' <= s[i] <= '~' && s[i] !in {'"', '\\', '<', '>', '&'}
  }

  lemma PartPlain(p: string)
    requires RepositoryPart(p)
    ensures PrintablePlain(p)
  {
  }

  lemma SlashPlain()
    ensures PrintablePlain("/")
  {
  }

  lemma PlainJoined(a: string, b: string)
    requires PrintablePlain(a) && PrintablePlain(b)
    ensures PrintablePlain(a + b)
  {
  }

  lemma {:induction false} AsciiIsUTF8(s: string)
    requires forall i :: 0 <= i < |s| ==> ' ' <= s[i] <= '~'
    ensures EgressPolicy.ValidUTF8(s)
  {
    if s != "" { AsciiIsUTF8(s[1..]); }
  }

  function Named(key: string, text: string): string { "\"" + key + "\":\"" + text + "\"" }

  /** One field of a printed object. */
  lemma PrintedField(key: string, text: string, more: Fields)
    requires Plain(key) && Plain(text)
    ensures EncodeFields(Field(key, Str(text), more))
      == Named(key, text) + (if more.NoFields? then "" else "," + EncodeFields(more))
  {
    hide Escape, Plain;
    EscapePlain(key);
    EscapePlain(text);
    assert Encode(Str(text)) == "\"" + text + "\"";
    var tail := if more.NoFields? then "" else "," + EncodeFields(more);
    assert "\"" + key + "\":" + ("\"" + text + "\"") + tail == Named(key, text) + tail;
  }

  lemma PrintedTwo(k: string, x: string, l: string, y: string)
    requires Plain(k) && Plain(x) && Plain(l) && Plain(y)
    ensures Encode(Obj(Field(k, Str(x), Field(l, Str(y), NoFields)))) == "{" + (Named(k, x) + ("," + Named(l, y))) + "}"
  {
    hide EncodeFields, Plain, Named;
    PrintedField(l, y, NoFields);
    PrintedField(k, x, Field(l, Str(y), NoFields));
    assert Named(l, y) + "" == Named(l, y);
  }

  lemma PrintedThree(k: string, x: string, l: string, y: string, m: string, z: string)
    requires Plain(k) && Plain(x) && Plain(l) && Plain(y) && Plain(m) && Plain(z)
    ensures Encode(Obj(Field(k, Str(x), Field(l, Str(y), Field(m, Str(z), NoFields)))))
         == "{" + (Named(k, x) + ("," + (Named(l, y) + ("," + Named(m, z))))) + "}"
  {
    hide EncodeFields, Plain, Named;
    PrintedField(m, z, NoFields);
    PrintedField(l, y, Field(m, Str(z), NoFields));
    PrintedField(k, x, Field(l, Str(y), Field(m, Str(z), NoFields)));
    assert Named(m, z) + "" == Named(m, z);
  }

  function ProviderFields(provider: string, more: Fields): Fields { Field("provider", Str(provider), more) }
  function RepositoryFields(repository: string, more: Fields): Fields { Field("repository", Str(repository), more) }
  function OperationFields(): Fields { Field("operation", Str("github-git-read"), NoFields) }

  lemma WireNames()
    ensures Plain("provider") && Plain("repository") && Plain("operation") && Plain("github") && Plain("openai")
      && Plain("github-git-read") && Plain("handle")
    ensures "provider" != "repository" && "provider" != "operation" && "repository" != "operation"
      && "github" != "openai"
  {
    assert |"provider"| == 8 && |"repository"| == 10 && |"operation"| == 9;
    assert "github"[0] == 'g' && "openai"[0] == 'o';
  }

  lemma StartText(rest: string)
    ensures "{" + (Named("provider", "github") + ("," + ("\"" + "repository" + "\":\"" + rest))) == BodyStart() + rest
  {
    StartParts();
    hide Named, BodyStart;
    Rebracketed("{", Named("provider", "github"), ",", "\"" + "repository" + "\":\"", rest);
  }

  lemma StartParts()
    ensures "{" + Named("provider", "github") + "," + ("\"" + "repository" + "\":\"") == BodyStart()
  {
  }

  lemma Rebracketed(a: string, b: string, c: string, d: string, rest: string)
    ensures a + (b + (c + (d + rest))) == a + b + c + d + rest
  {
  }

  lemma OperationText()
    ensures "\"" + ("," + Named("operation", "github-git-read")) + "}" == BodyEnd()
  {
  }

  /** The same text with its brackets moved. */
  lemma Regroup(a: string, key: string, r: string, tail: string)
    ensures "{" + (a + ("," + (key + r + tail))) + "}" == "{" + (a + ("," + (key + (r + (tail + "}")))))
  {
  }

  lemma GitBodyPrinted(r: string)
    requires Plain(r)
    ensures GitBody(r) == Encode(Obj(ProviderFields("github", RepositoryFields(r, OperationFields()))))
  {
    hide Encode, Plain;
    WireNames();
    PrintedThree("provider", "github", "repository", r, "operation", "github-git-read");
    OperationText();
    StartText(r + BodyEnd());
    var tail := "\"" + ("," + Named("operation", "github-git-read"));
    NamedParts("repository", r, "," + Named("operation", "github-git-read"));
    hide BodyStart, BodyEnd, Named;
    Regroup(Named("provider", "github"), "\"" + "repository" + "\":\"", r, tail);
    assert BodyStart() + (r + BodyEnd()) == BodyStart() + r + BodyEnd();
  }

  lemma NamedParts(key: string, text: string, more: string)
    ensures Named(key, text) + more == "\"" + key + "\":\"" + text + ("\"" + more)
  {
  }

  lemma RestBodyPrinted(r: string)
    requires Plain(r)
    ensures RestBody(r) == Encode(Obj(ProviderFields("github", RepositoryFields(r, NoFields))))
  {
    hide Encode, Plain;
    WireNames();
    PrintedTwo("provider", "github", "repository", r);
    StartText(r + ("\"" + "}"));
    NamedParts("repository", r, "");
    hide BodyStart, Named;
    assert Named("repository", r) + "" == Named("repository", r) && "\"" + "" == "\"";
    Regroup(Named("provider", "github"), "\"" + "repository" + "\":\"", r, "\"");
    assert BodyStart() + (r + ("\"" + "}")) == BodyStart() + r + "\"}";
  }

  lemma OpenAIBodyPrinted()
    ensures OpenAIBody() == Encode(Obj(ProviderFields("openai", NoFields)))
  {
    hide EncodeFields;
    WireNames();
    PrintedField("provider", "openai", NoFields);
    assert Named("provider", "openai") + "" == Named("provider", "openai");
  }

  lemma CollectOne(key: string, text: string, more: Fields, values: map<string, string>)
    requires WantedKey(key) && key !in values && text != ""
    ensures Collect(Field(key, Str(text), more), values) == Collect(more, values[key := text])
  {
  }

  lemma CollectedFields(r: string)
    requires r != ""
    ensures Collect(ProviderFields("github", RepositoryFields(r, OperationFields())), map[])
      == Some(map["provider" := "github", "repository" := r, "operation" := "github-git-read"])
    ensures Collect(ProviderFields("github", RepositoryFields(r, NoFields)), map[])
      == Some(map["provider" := "github", "repository" := r])
    ensures Collect(ProviderFields("openai", NoFields), map[]) == Some(map["provider" := "openai"])
  {
    WireNames();
    hide Plain;
    var one: map<string, string> := map["provider" := "github"];
    var two: map<string, string> := map["provider" := "github", "repository" := r];
    assert map[]["provider" := "github"] == one && one["repository" := r] == two;
    CollectOne("provider", "github", RepositoryFields(r, OperationFields()), map[]);
    CollectOne("provider", "github", RepositoryFields(r, NoFields), map[]);
    CollectOne("repository", r, OperationFields(), one);
    CollectOne("repository", r, NoFields, one);
    CollectOne("operation", "github-git-read", NoFields, two);
    CollectOne("provider", "openai", NoFields, map[]);
    hide WantedKey;
  }

  lemma ChosenFields(r: string)
    ensures Chosen(map["provider" := "github", "repository" := r, "operation" := "github-git-read"])
      == Some(Wanted("github", r, "github-git-read"))
    ensures Chosen(map["provider" := "github", "repository" := r]) == Some(Wanted("github", r, ""))
    ensures Chosen(map["provider" := "openai"]) == Some(Wanted("openai", "", ""))
  {
    WireNames();
    ThreeKeys("provider", "github", "repository", r, "operation", "github-git-read");
  }

  lemma ThreeKeys(a: string, x: string, b: string, y: string, c: string, z: string)
    requires a != b && a != c && b != c
    ensures |map[a := x, b := y, c := z]| == 3 && |map[a := x, b := y]| == 2 && |map[a := x]| == 1
  {
    var m := map[a := x, b := y, c := z];
    assert m.Keys == {a, b, c} && |m| == |m.Keys|;
    assert map[a := x, b := y].Keys == {a, b} && |map[a := x, b := y]| == |map[a := x, b := y].Keys|;
    assert map[a := x].Keys == {a} && |map[a := x]| == |map[a := x].Keys|;
  }

  lemma AsciiBody(body: string, fields: Fields)
    requires body == Encode(Obj(fields)) && WellFormedFields(fields)
      && forall i :: 0 <= i < |body| ==> ' ' <= body[i] <= '~'
    ensures body != "" && EgressPolicy.ValidUTF8(body) && Decode(body) == Some(Obj(fields))
  {
    hide Decode, EncodeFields;
    AsciiIsUTF8(body);
    assert WellFormed(Obj(fields));
    DecodeOfEncode(Obj(fields));
  }

  lemma PrintableParts()
    ensures HeaderBytes(BodyStart()) && HeaderBytes(BodyEnd()) && HeaderBytes("\"}") && HeaderBytes(OpenAIBody())
  {
  }

  lemma BytesJoined(a: string, b: string, c: string)
    requires HeaderBytes(a) && HeaderBytes(b) && HeaderBytes(c)
    ensures HeaderBytes(a + b + c)
  {
  }

  lemma StringFields(r: string)
    ensures WellFormedFields(ProviderFields("github", RepositoryFields(r, OperationFields())))
    ensures WellFormedFields(ProviderFields("github", RepositoryFields(r, NoFields)))
  {
    assert WellFormedFields(OperationFields());
    assert WellFormedFields(RepositoryFields(r, OperationFields()));
    assert WellFormedFields(RepositoryFields(r, NoFields));
  }

  lemma DecodedVia(body: string, fields: Fields, values: map<string, string>, wanted: Wanted)
    requires body == Encode(Obj(fields)) && WellFormedFields(fields) && HeaderBytes(body)
    requires Collect(fields, map[]) == Some(values) && Chosen(values) == Some(wanted)
    ensures DecodeIssueBody(body) == if |body| <= MAX_BODY then Some(wanted) else None
  {
    hide Decode, Encode, Collect, Chosen, EgressPolicy.ValidUTF8, WellFormedFields;
    AsciiBody(body, fields);
  }

  /** For every canonical repository the server recovers exactly the client's request if and only if
      its body is within 512 bytes, and refuses it otherwise. */
  lemma GitIssueRecovered(r: string)
    requires RepositoryName(r)
    ensures ServerReads(IssueBytes(GitBody(r))) == if |GitBody(r)| <= MAX_BODY then
      Some(Issue(Wanted("github", r, "github-git-read"))) else None
  {
    hide RepositoryName, BodyStart, BodyEnd, IssueBytes, ServerReads, Collect, Chosen, Encode, DecodeIssueBody;
    PlainRepository(r);
    PrintableParts();
    BytesJoined(BodyStart(), r, BodyEnd());
    GitBodyPrinted(r);
    StringFields(r);
    CollectedFields(r);
    ChosenFields(r);
    DecodedVia(GitBody(r), ProviderFields("github", RepositoryFields(r, OperationFields())),
               map["provider" := "github", "repository" := r, "operation" := "github-git-read"], Wanted("github", r,
                 "github-git-read"));
    IssueRead(GitBody(r));
    NotEmpty(r);
  }

  lemma NotEmpty(r: string)
    ensures |GitBody(r)| >= 1 && |RestBody(r)| >= 1 && |OpenAIBody()| == 21
  {
  }

  lemma RestIssueRecovered(r: string)
    requires RepositoryName(r)
    ensures ServerReads(IssueBytes(RestBody(r))) == if |RestBody(r)| <= MAX_BODY then
      Some(Issue(Wanted("github", r, ""))) else None
  {
    hide RepositoryName, BodyStart, BodyEnd, IssueBytes, ServerReads, Collect, Chosen, Encode, DecodeIssueBody;
    PlainRepository(r);
    PrintableParts();
    BytesJoined(BodyStart(), r, "\"}");
    RestBodyPrinted(r);
    StringFields(r);
    CollectedFields(r);
    ChosenFields(r);
    DecodedVia(RestBody(r), ProviderFields("github", RepositoryFields(r, NoFields)),
               map["provider" := "github", "repository" := r], Wanted("github", r, ""));
    IssueRead(RestBody(r));
    NotEmpty(r);
  }

  lemma OpenAIIssueRecovered()
    ensures ServerReads(IssueBytes(OpenAIBody())) == Some(Issue(Wanted("openai", "", "")))
  {
    hide IssueBytes, ServerReads, Collect, Chosen, Encode, DecodeIssueBody, OpenAIBody;
    PrintableParts();
    OpenAIBodyPrinted();
    CollectedFields("r");
    ChosenFields("r");
    DecodedVia(OpenAIBody(), ProviderFields("openai", NoFields), map["provider" := "openai"], Wanted("openai", "", ""));
    IssueRead(OpenAIBody());
    NotEmpty("r");
  }

  // ---- revocation -----------------------------------------------------------------------------------------------

  lemma RevokeLineRead(h: string)
    requires Base64.CanonicalHandle(h)
    ensures RequestKind(RevokeLine(h)) == Some(RevokeKind(h)) && NoCR(RevokeLine(h)) && RevokeLine(h) != ""
      && RevokeLine(h)[0] == 'D' && |RevokeLine(h)| <= 100
  {
    hide Base64.CanonicalHandle, Base64.HasPrefix, EgressPolicy.TrimSuffix, NoCR, HeaderBytes, Plain, RevokePrefix,
      RevokeSuffix, IssueLine;
    HandleText(h);
    PlainLines();
    RevokeParts();
    PathTaken(RevokePrefix(), h, RevokeSuffix());
    LineJoined(RevokePrefix(), h, RevokeSuffix());
  }

  lemma RevokeParts()
    ensures |RevokePrefix()| == 24 && |RevokeSuffix()| == 9
  {
  }

  lemma LineJoined(a: string, b: string, c: string)
    requires NoCR(a) && NoCR(b) && NoCR(c)
    ensures NoCR(a + b + c)
  {
  }

  /** The text between a prefix and a suffix is what is left when both are cut off. */
  lemma PathTaken(prefix: string, h: string, suffix: string)
    requires suffix != ""
    ensures var line := prefix + h + suffix;
      Base64.HasPrefix(line, prefix) && EgressPolicy.TrimSuffix(line, suffix) != line
      && EgressPolicy.TrimSuffix(line[|prefix|..], suffix) == h
  {
    var line := prefix + h + suffix;
    assert line[..|prefix|] == prefix && line[|prefix|..] == h + suffix;
    assert line[|line| - |suffix|..] == suffix && (h + suffix)[|h|..] == suffix && (h + suffix)[..|h|] == h;
  }

  /** A handle has only letters, digits, '-' and '_'. */
  lemma HandleText(h: string)
    requires Base64.CanonicalHandle(h)
    ensures |h| == 47 && '/' !in h && '?' !in h && '#' !in h && NoCR(h) && Plain(h) && HeaderBytes(h)
  {
    hide Base64.Encode, Base64.Decode;
    Base64.HandlesExactly(h);
    var raw: seq<Byte> :| |raw| == Base64.HANDLE_BYTES && h == Base64.HandleOf(raw);
    Base64.URLCharacters(raw);
    Base64.PrefixTaken(raw);
    var cap := "cap_";
    forall i | 0 <= i < |h| ensures Base64.URLCharacter(h[i]) {
      if i < 4 { assert h[i] == cap[i]; } else { assert h[i] == Base64.Encode(raw, Base64.RawURL)[i - 4]; }
    }
  }

  lemma RevokeFieldsRead()
    ensures forall h :: ReadFields(RevokeKind(h), [LengthField(0)], 1) == Some(Seen(Some(0), false))
  {
    hide FieldOf, LengthField, Lower, CanonicalLength;
    LengthFieldFound(0);
    FieldNames();
    LengthRead(0);
    forall h ensures ReadFields(RevokeKind(h), [LengthField(0)], 1) == Some(Seen(Some(0), false)) {
      assert ReadFields(RevokeKind(h), [LengthField(0)], 0) == Some(Seen(None, false));
    }
  }

  lemma RevokeHeaderParsed(h: string)
    requires Base64.CanonicalHandle(h)
    ensures ParseHeader(RevokeBytes(h)) == Some((RevokeKind(h), 0))
  {
    hide SplitLines, LengthField, RevokeLine, RequestKind, ReadFields, ProxyCARequest, Base64.CanonicalHandle, FieldOf,
      NoCR;
    var header := RevokeBytes(h);
    RevokeLineRead(h);
    LengthFieldFound(0);
    assert header[0] == RevokeLine(h)[0];
    NotTheProxyRequest(header);
    LinesOfLine(RevokeLine(h), LengthField(0) + Marker());
    LastLines(LengthField(0));
    RevokeFieldsRead();
    assert SplitLines(header)[1..2] == [LengthField(0)];
  }

  /** For every canonical handle the server recovers exactly the client's revocation. */
  lemma RevokeRecovered(h: string)
    requires Base64.CanonicalHandle(h)
    ensures ServerReads(RevokeBytes(h)) == Some(Revoke(h))
  {
    hide FirstMarker, LengthField, RevokeLine, ParseHeader, Base64.CanonicalHandle, IsConnect, DecodeIssueBody, NoCR,
      RequestKind, FieldOf, Decimal;
    var bytes := RevokeBytes(h);
    RevokeLineRead(h);
    LengthFieldFound(0);
    LengthStart(0);
    MarkerAfterLine(RevokeLine(h), LengthField(0) + Marker());
    assert LengthField(0) + Marker() == LengthField(0) + (Marker() + "");
    MarkerAtEnd(LengthField(0), "");
    RevokeHeaderParsed(h);
    assert bytes[0] == RevokeLine(h)[0];
    NotConnectHeader(bytes);
    DecimalZero();
    assert bytes[..|bytes|] == bytes && bytes[|bytes|..] == "";
  }

  lemma DecimalZero()
    ensures |Decimal(0)| == 1
  {
  }

  // ---- the reply ---------------------------------------------------------------------------------------------------

  function ReplyBody(handle: string): string { Encode(Obj(Field("handle", Str(handle), NoFields))) }

  function ReplyLine(): string { "HTTP/1.1 200 OK" }
  function CloseField(): string { "Connection: close" }
  function ReplyPrefix(): string { ReplyLine() + CRLF() + (TypeField() + CRLF() + "Content-Length: ") }
  function ReplySuffix(): string { CRLF() + (CloseField() + Marker()) }

  /** What the server answers an issue with. */
  function ServerReply(handle: string): string {
    ReplyPrefix() + Decimal(|ReplyBody(handle)|) + ReplySuffix() + ReplyBody(handle)
  }

  /** issueHeaderLength. */
  function ReplyLength(header: string): Option<nat> {
    if !Base64.HasPrefix(header, ReplyPrefix()) || EgressPolicy.TrimSuffix(header, ReplySuffix()) == header then None
    else
      var length :- CanonicalLength(EgressPolicy.TrimSuffix(header[|ReplyPrefix()|..], ReplySuffix()));
      if length == ISSUE_BODY_LENGTH then Some(length) else None
  }

  function HandleStart(): string { "{\"handle\":\"" }

  /** readResponse and the checks on an issue reply. */
  function ClientReads(data: string): Option<string> {
    if |data| > MAX_RESPONSE_HEADER + ISSUE_BODY_LENGTH then None
    else
      var n :- FirstMarker(data);
      if n > MAX_RESPONSE_HEADER then None
      else
        var length :- ReplyLength(data[..n]);
        var body := data[n..];
        if |body| != length || !Base64.HasPrefix(body, HandleStart()) || body[|body| - 2..] != "\"}" then None
        else
          var handle := body[|HandleStart()|..|body| - 2];
          if Base64.CanonicalHandle(handle) && body == HandleStart() + handle + "\"}" then Some(handle) else None
  }

  lemma ReplyBodyText(h: string)
    requires Base64.CanonicalHandle(h)
    ensures ReplyBody(h) == HandleStart() + h + "\"}" && |ReplyBody(h)| == ISSUE_BODY_LENGTH
  {
    hide EncodeFields, Base64.CanonicalHandle;
    HandleText(h);
    WireNames();
    PrintedField("handle", h, NoFields);
    assert Named("handle", h) + "" == Named("handle", h);
    HandleStartText(h);
  }

  lemma HandleStartText(h: string)
    ensures "{" + Named("handle", h) + "}" == HandleStart() + h + "\"}" && |HandleStart()| == 11
  {
  }

  // ---- the client recovers exactly the server's handle -----------------------------------------------------

  lemma SixtyText()
    ensures Decimal(60) == "60" && CanonicalLength("60") == Some(60)
  {
    assert Decimal(6) == "6";
    LengthRead(60);
  }

  /** The reply header line by line. */
  lemma ReplyLines(digits: string, body: string)
    ensures ReplyPrefix() + digits + ReplySuffix() + body
         == ReplyLine() + (CRLF() + (TypeField() + (CRLF()
            + ("Content-Length: " + digits + (CRLF() + (CloseField() + (Marker() + body)))))))
  {
    SuffixText(body);
    hide ReplySuffix, ReplyLine, TypeField, CRLF, CloseField, Marker;
    var l, t, n := ReplyLine() + CRLF(), TypeField() + CRLF(), "Content-Length: ";
    var c := CRLF() + (CloseField() + (Marker() + body));
    assert ReplyPrefix() + digits + ReplySuffix() + body == (l + (t + n)) + digits + c;
    Rebracket(ReplyLine(), CRLF(), TypeField(), CRLF(), n, digits, c);
  }

  lemma Rebracket(a: string, b: string, c: string, d: string, n: string, digits: string, e: string)
    ensures (a + b + (c + d + n)) + digits + e == a + (b + (c + (d + (n + digits + e))))
  {
  }

  lemma SuffixText(body: string)
    ensures ReplySuffix() + body == CRLF() + (CloseField() + (Marker() + body))
  {
    hide CloseField;
  }

  lemma ReplyMarker(digits: string, body: string)
    requires NoCR(digits)
    ensures FirstMarker(ReplyPrefix() + digits + ReplySuffix() + body)
      == Some(|ReplyPrefix()| + |digits| + |ReplySuffix()|)
  {
    hide FirstMarker, ReplyPrefix, ReplySuffix, ReplyLine, TypeField, CloseField, NoCR;
    ReplyLines(digits, body);
    ReplyParts();
    TypeFieldFound();
    var lengthLine := "Content-Length: " + digits;
    LengthLine(digits);
    var rest := CloseField() + (Marker() + body);
    MarkerAtEnd(CloseField(), body);
    MarkerAfterLine(lengthLine, rest);
    MarkerAfterLine(TypeField(), lengthLine + (CRLF() + rest));
    MarkerAfterLine(ReplyLine(), TypeField() + (CRLF() + (lengthLine + (CRLF() + rest))));
  }

  lemma LengthLine(digits: string)
    requires NoCR(digits)
    ensures var line := "Content-Length: " + digits; NoCR(line) && line[0] == 'C' && |line| == 16 + |digits|
  {
  }

  lemma ReplyParts()
    ensures NoCR(ReplyLine()) && NoCR(CloseField()) && CloseField()[0] == 'C' && TypeField()[0] == 'C'
      && |ReplyLine()| == 15 && |CloseField()| == 17 && |TypeField()| == 30
    ensures |ReplyPrefix()| == 65 && |ReplySuffix()| == 23
  {
    assert |"Content-Length: "| == 16;
  }

  lemma ReplyLengthRead(digits: string)
    requires |digits| >= 1
    ensures ReplyLength(ReplyPrefix() + digits + ReplySuffix()) ==
            if CanonicalLength(digits) == Some(ISSUE_BODY_LENGTH) then Some(ISSUE_BODY_LENGTH) else None
  {
    hide ReplyPrefix, ReplySuffix, CanonicalLength;
    ReplyParts();
    var header := ReplyPrefix() + digits + ReplySuffix();
    assert header[..|ReplyPrefix()|] == ReplyPrefix();
    assert header[|header| - |ReplySuffix()|..] == ReplySuffix();
    var tail := header[|ReplyPrefix()|..];
    assert tail == digits + ReplySuffix() && tail[|tail| - |ReplySuffix()|..] == ReplySuffix()
      && tail[..|tail| - |ReplySuffix()|] == digits;
  }

  /** The client recovers the handle from the server's reply. */
  lemma ReplyRecovered(h: string)
    requires Base64.CanonicalHandle(h)
    ensures ClientReads(ServerReply(h)) == Some(h)
  {
    hide FirstMarker, ReplyPrefix, ReplySuffix, ReplyLength, Base64.CanonicalHandle, HandleStart, ReplyBody, Decimal;
    ReplyBodyText(h);
    SixtyText();
    ReplyParts();
    HandleStartText(h);
    var body, header := ReplyBody(h), ReplyPrefix() + "60" + ReplySuffix();
    ReplyMarker("60", body);
    ReplyLengthRead("60");
    HandleText(h);
    assert ServerReply(h)[..|header|] == header && ServerReply(h)[|header|..] == body;
    assert body[..11] == HandleStart() && body[58..] == "\"}" && body[11..58] == h;
  }

  /** And accepts nothing else: whatever bytes the client takes for an issue reply are the server's
      reply for that handle. */
  lemma OnlyRepliesAccepted(data: string, h: string)
    requires ClientReads(data) == Some(h)
    ensures Base64.CanonicalHandle(h) && data == ServerReply(h)
  {
    hide FirstMarker, ReplyPrefix, ReplySuffix, Base64.CanonicalHandle, HandleStart, ReplyBody, Decimal,
      CanonicalLength;
    var n := FirstMarker(data).value;
    var header, body := data[..n], data[n..];
    HandleStartText(h);
    ReplyBodyText(h);
    SixtyText();
    ReplyParts();
    HeaderOfLength(header);
    assert data == header + body;
  }

  lemma Untrimmed(s: string, suffix: string)
    ensures |s| < |suffix| ==> EgressPolicy.TrimSuffix(s, suffix) == s
  {
  }

  lemma Trimmed(s: string, suffix: string)
    requires |s| >= |suffix| && s[|s| - |suffix|..] == suffix
    ensures s == EgressPolicy.TrimSuffix(s, suffix) + suffix
  {
  }

  lemma LastOfTail(s: string, p: string)
    requires |p| <= |s|
    ensures s[|p|..] != "" ==> s[|p|..][|s| - |p| - 1] == s[|s| - 1]
  {
  }

  lemma EndOfTail(s: string, p: string, suffix: string)
    requires |p| + |suffix| <= |s| && s[|s| - |suffix|..] == suffix
    ensures s[|p|..][|s| - |p| - |suffix|..] == suffix
  {
  }

  lemma TrimmedEnd(s: string, suffix: string)
    requires EgressPolicy.TrimSuffix(s, suffix) != s && suffix != ""
    ensures |s| >= |suffix| && s[|s| - |suffix|..] == suffix && s[|s| - 1] == suffix[|suffix| - 1]
  {
    assert |s| >= |suffix| ==> s[|s| - |suffix|..][|suffix| - 1] == s[|s| - 1];
  }

  /** Prefix and suffix do not overlap when what is left between them ends otherwise. */
  lemma Between(header: string, p: string, suffix: string)
    requires Base64.HasPrefix(header, p) && EgressPolicy.TrimSuffix(header, suffix) != header && suffix != ""
    requires var digits := EgressPolicy.TrimSuffix(header[|p|..], suffix);
      digits != "" && digits[|digits| - 1] != suffix[|suffix| - 1]
    ensures header == p + EgressPolicy.TrimSuffix(header[|p|..], suffix) + suffix
  {
    hide EgressPolicy.TrimSuffix;
    var tail := header[|p|..];
    assert header == p + tail;
    TrimmedEnd(header, suffix);
    Untrimmed(tail, suffix);
    LastOfTail(header, p);
    assert |tail| >= |suffix|;
    EndOfTail(header, p, suffix);
    Trimmed(tail, suffix);
    assert p + (EgressPolicy.TrimSuffix(tail, suffix) + suffix) == p + EgressPolicy.TrimSuffix(tail, suffix) + suffix;
  }

  lemma HeaderOfLength(header: string)
    requires ReplyLength(header).Some?
    ensures header == ReplyPrefix() + "60" + ReplySuffix() && ReplyLength(header) == Some(60)
  {
    ReplyParts();
    assert ReplySuffix()[22] == '\n';
    hide ReplyPrefix, ReplySuffix, EgressPolicy.TrimSuffix;
    var digits := EgressPolicy.TrimSuffix(header[|ReplyPrefix()|..], ReplySuffix());
    DecimalOfDecimalValue(digits);
    SixtyText();
    assert digits == "60" && digits[1] == '0';
    Between(header, ReplyPrefix(), ReplySuffix());
  }
}
