/** The allowlist decision at the egress boundary: which request reads which provider scope. */
module EgressPolicy {
  import opened Text
  import opened Json
  import opened Capability
  import Scanner

  const MAX_URL_BYTES := 4096

  datatype Target = Target(provider: Provider, repository: string, operation: Operation, host: Host)

  datatype Policy = Policy(repositories: set<string>, models: set<string>, maxBodyBytes: int, maxOutputTokens: int)

  datatype Call = Call(verb: string, url: string, contentType: string, body: string)

  // ---- names -----------------------------------------------------------------------------------------

  predicate Ascii(s: string) { forall i :: 0 <= i < |s| ==> ' ' <= s[i] <= '~' }

  predicate ValidChildSegment(s: string) {
    s != "" && s != "." && s != ".." && Ascii(s) && forall i :: 0 <= i < |s| ==> s[i] != '\\'
  }

  predicate ValidModel(m: string) {
    m != "" && AlphaNumeric(m[0]) && forall i :: 1 <= i < |m| ==> AlphaNumeric(m[i]) || m[i] in {'.', '_', '-'}
  }

  predicate ValidPolicy(p: Policy) {
    p.repositories != {} && p.models != {} && p.maxBodyBytes > 0 && p.maxOutputTokens > 0
    && (forall r :: r in p.repositories ==> RepositoryName(r)) && forall m :: m in p.models ==> ValidModel(m)
  }

  /** New copies the lists into sets and refuses an invalid or repeated name. */
  method NewPolicy(repositories: seq<string>, models: seq<string>, maxBodyBytes: int, maxOutputTokens: int)
    returns (r: Option<Policy>)
    ensures r.Some? <==> repositories != [] && models != [] && maxBodyBytes > 0 && maxOutputTokens > 0
                         && (forall i :: 0 <= i < |repositories| ==> RepositoryName(repositories[i]))
                         && (forall i, j :: 0 <= i < j < |repositories| ==> repositories[i] != repositories[j])
                         && (forall i :: 0 <= i < |models| ==> ValidModel(models[i]))
                         && (forall i, j :: 0 <= i < j < |models| ==> models[i] != models[j])
    ensures r.Some? ==> ValidPolicy(r.value)
    ensures r.Some? ==> r.value.repositories == (set x | x in repositories) && r.value.models == (set x | x in models)
    ensures r.Some? ==> r.value.maxBodyBytes == maxBodyBytes && r.value.maxOutputTokens == maxOutputTokens
  {
    hide RepositoryName, ValidModel;
    if repositories == [] || models == [] || maxBodyBytes <= 0 || maxOutputTokens <= 0 { return None; }
    var github: set<string> := {};
    for i := 0 to |repositories|
      invariant github == set x | x in repositories[..i]
      invariant forall j :: 0 <= j < i ==> RepositoryName(repositories[j])
      invariant forall a, b :: 0 <= a < b < i ==> repositories[a] != repositories[b]
    {
      if !RepositoryName(repositories[i]) { return None; }
      if repositories[i] in github {
        var j :| 0 <= j < i && repositories[j] == repositories[i];
        return None;
      }
      github := github + {repositories[i]};
      assert repositories[..i + 1] == repositories[..i] + [repositories[i]];
    }
    var allowed: set<string> := {};
    for i := 0 to |models|
      invariant allowed == set x | x in models[..i]
      invariant forall j :: 0 <= j < i ==> ValidModel(models[j])
      invariant forall a, b :: 0 <= a < b < i ==> models[a] != models[b]
    {
      if !ValidModel(models[i]) { return None; }
      if models[i] in allowed {
        var j :| 0 <= j < i && models[j] == models[i];
        return None;
      }
      allowed := allowed + {models[i]};
      assert models[..i + 1] == models[..i] + [models[i]];
    }
    assert repositories[..|repositories|] == repositories && models[..|models|] == models;
    assert repositories[0] in github && models[0] in allowed;
    r := Some(Policy(github, allowed, maxBodyBytes, maxOutputTokens));
  }

  // ---- addresses ---------------------------------------------------------------------------------------

  /** The parts of an address whose spelling the URL parser keeps as it is. */
  datatype Address = Address(authority: string, path: string, query: Option<string>)

  function IndexOf(s: string, cs: set<char>): (n: nat)
    ensures n <= |s| && (n < |s| ==> s[n] in cs) && forall i :: 0 <= i < n ==> s[i] !in cs
  {
    if s == [] || s[0] in cs then 0 else 1 + IndexOf(s[1..], cs)
  }

  /** A path character that is spelled the same escaped and unescaped. */
  predicate PathChar(c: char) {
    AlphaNumeric(c) || c in {'-', '_', '.', '~', '$', '&', '+', ',', '/', ':', ';', '=', '@'}
  }

  /** url.Parse and the checks that the result spells the same address again, on addresses with no
      '%' and no '#': an https address with no user, and no path character that would be escaped. */
  function ParseAddress(raw: string): Option<Address> {
    if |raw| == 0 || |raw| > MAX_URL_BYTES || '%' in raw || '#' in raw || !Ascii(raw) || !("https://" <= raw) then None
    else ParseParts(raw[8..])
  }

  function ParseParts(rest: string): Option<Address> {
    var a := IndexOf(rest, {'/', '?'});
    var q := IndexOf(rest, {'?'});
    if q < a then None
    else
      var path := rest[a..q];
      if path == "" || exists i :: 0 <= i < |path| && !PathChar(path[i]) then None
      else Some(Address(rest[..a], path, if q == |rest| then None else Some(rest[q + 1..])))
  }

  /** The path of an address of this host, with the query it may have. */
  function AddressOf(raw: string, host: string): Option<Address> {
    var u :- ParseAddress(raw);
    if u.authority == host || u.authority == host + ":443" then Some(u) else None
  }

  function Segments(path: string): Option<seq<string>> {
    if path == "" || path[0] != '/' || !Ascii(path) then None else Some(Split(path[1..], '/'))
  }

  function TrimSuffix(s: string, suffix: string): string {
    if |s| >= |suffix| && s[|s| - |suffix|..] == suffix then s[..|s| - |suffix|] else s
  }

  // ---- the three authorizers -------------------------------------------------------------------------------

  function AuthorizeRest(p: Policy, c: Call): Option<Target> {
    if c.verb != "GET" && c.verb != "HEAD" then None
    else
      var u :- AddressOf(c.url, "api.github.com");
      if u.query.Some? then None
      else
        var segments :- Segments(u.path);
        if |segments| < 3 || segments[0] != "repos" || !RepositoryPart(segments[1]) || !RepositoryPart(segments[2])
           || (exists i :: 3 <= i < |segments| && !ValidChildSegment(segments[i])) then None
        else
          var repository := segments[1] + "/" + segments[2];
          if repository in p.repositories then Some(Target(GitHub, repository, RestRead, ApiGitHub)) else None
  }

  function GitUploadPack(): string { "application/x-git-upload-pack-request" }

  predicate Discovery(c: Call, segments: seq<string>, query: Option<string>) {
    c.verb == "GET" && |segments| == 4 && segments[2] == "info" && segments[3] == "refs"
      && query == Some("service=git-upload-pack")
    && c.contentType == "" && c.body == ""
  }

  predicate Upload(p: Policy, c: Call, segments: seq<string>, query: Option<string>) {
    c.verb == "POST" && |segments| == 3 && segments[2] == "git-upload-pack" && query.None?
      && c.contentType == GitUploadPack()
    && 0 < |c.body| <= p.maxBodyBytes
  }

  function AuthorizeGit(p: Policy, c: Call): Option<Target> {
    var u :- AddressOf(c.url, "github.com");
    if u.query.Some? && u.query != Some("service=git-upload-pack") then None
    else
      var segments :- Segments(u.path);
      if |segments| < 2 || !RepositoryPart(segments[0]) then None
      else
        var name := TrimSuffix(segments[1], ".git");
        if name == segments[1] || !RepositoryPart(name) then None
        else
          var repository := segments[0] + "/" + name;
          if repository !in p.repositories || !(Discovery(c, segments, u.query) || Upload(p, c, segments, u.query)) then
            None
          else Some(Target(GitHub, repository, GitRead, PlainGitHub))
  }

  /** encoding/json matches field names without regard to ASCII case; the last match counts. */
  function FoldedLookup(fields: Fields, name: string): Option<Json> {
    match fields
    case NoFields => None
    case Field(k, v, more) =>
      var later := FoldedLookup(more, name); if later.Some? then later else if Lower(k) == name then Some(v) else None
  }

  predicate KnownName(key: string) {
    Lower(key) in {"model", "input", "instructions", "store", "stream", "max_output_tokens"}
  }

  predicate KnownFields(fields: Fields) { fields.Field? ==> KnownName(fields.key) && KnownFields(fields.more) }

  /** Every field that is decoded must have its type, or be null, each time it occurs. */
  predicate TypedField(key: string, value: Json) {
    match value
    case Null => true
    case Str(_) => Lower(key) in {"model", "input", "instructions"}
    case Bool(_) => Lower(key) in {"store", "stream"}
    case Num(l) => Lower(key) == "max_output_tokens" && IntegerLexeme(l)
    case _ => false
  }

  predicate TypedFields(fields: Fields) {
    fields.Field? ==> TypedField(fields.key, fields.value) && TypedFields(fields.more)
  }

  /** A JSON number a Go int can be decoded from. */
  predicate IntegerLexeme(l: string) {
    l != [] && var digits := if l[0] == '-' then l[1..] else l;
               digits != "" && AllDigits(digits)
                 && DecimalValue(digits) < (if l[0] == '-' then 0x8000_0000_0000_0001 else 0x8000_0000_0000_0000)
  }

  predicate HasField(fields: Fields, name: string) {
    fields.Field? && (fields.key == name || HasField(fields.more, name))
  }

  predicate StrictBody(body: string, models: set<string>, maxTokens: int) {
    var v := Decode(body);
    v.Some? && v.value.Obj? && Scanner.KeysDistinct(v.value) && StrictFields(v.value.fields, models, maxTokens)
  }

  predicate StrictFields(f: Fields, models: set<string>, maxTokens: int) {
    KnownFields(f) && TypedFields(f)
    && (match FoldedLookup(f, "model") case Some(Str(m)) => m in models case _ => false)
    && (match FoldedLookup(f, "input") case Some(Str(t)) => t != "" case _ => false)
    && FoldedLookup(f, "store") == Some(Bool(false)) && FoldedLookup(f, "stream") == Some(Bool(false))
    && (match FoldedLookup(f, "max_output_tokens")
        case Some(Num(l)) => AllDigits(l) && 0 < DecimalValue(l) <= maxTokens
        case _ => false)
    && !((FoldedLookup(f, "instructions").None? || FoldedLookup(f, "instructions") == Some(Null))
    && HasField(f, "instructions"))
  }

  /** utf8.Valid: the well-formed sequences of table 3-7 of the Unicode standard. */
  predicate ValidUTF8(s: string) {
    s == "" ||
    var c := s[0] as int;
    if c < 0x80 then ValidUTF8(s[1..])
    else if 0xC2 <= c <= 0xDF then |s| >= 2 && Continues(s[1], 0x80, 0xBF) && ValidUTF8(s[2..])
    else if 0xE0 <= c <= 0xEF then
      |s| >= 3 && Continues(s[1], if c == 0xE0 then 0xA0 else 0x80, if c == 0xED then 0x9F else 0xBF)
      && Continues(s[2], 0x80, 0xBF) && ValidUTF8(s[3..])
    else 0xF0 <= c <= 0xF4 && |s| >= 4
         && Continues(s[1], if c == 0xF0 then 0x90 else 0x80, if c == 0xF4 then 0x8F else 0xBF)
         && Continues(s[2], 0x80, 0xBF) && Continues(s[3], 0x80, 0xBF) && ValidUTF8(s[4..])
  }

  predicate Continues(c: char, low: int, high: int) { low <= c as int <= high }

  function AuthorizeOpenAI(p: Policy, c: Call): Option<Target> {
    if c.verb != "POST" || c.contentType != "application/json" || |c.body| == 0 || |c.body| > p.maxBodyBytes then None
    else
      var u :- AddressOf(c.url, "api.openai.com");
      if u.query.Some? || u.path != "/v1/responses" || !ValidUTF8(c.body)
         || !StrictBody(c.body, p.models, p.maxOutputTokens) then None
      else Some(Target(OpenAI, "", ResponsesText, ApiOpenAI))
  }

  function Evaluate(p: Policy, c: Call): Option<Target> {
    if p.repositories == {} || p.models == {} || p.maxBodyBytes <= 0 || p.maxOutputTokens <= 0 then None
    else match AuthorizeRest(p, c)
         case Some(t) => Some(t)
         case None =>
           match AuthorizeGit(p, c)
           case Some(t) => Some(t)
           case None => AuthorizeOpenAI(p, c)
  }

  // ---- what an allowed request is ---------------------------------------------------------------------------

  /** No address belongs to two providers, so at most one authorizer ever allows a request and their
      order does not matter. */
  lemma AuthorizersAreExclusive(p: Policy, c: Call)
    ensures AuthorizeRest(p, c).Some? ==> AuthorizeGit(p, c).None? && AuthorizeOpenAI(p, c).None?
    ensures AuthorizeGit(p, c).Some? ==> AuthorizeOpenAI(p, c).None?
  {
    hide ParseAddress, Segments, RepositoryPart, StrictBody, Discovery, Upload, ValidUTF8, ValidChildSegment;
    HostsDiffer();
  }

  lemma HostsDiffer()
    ensures var a, b, c := "api.github.com", "github.com", "api.openai.com";
      a != b && a != c && b != c && a + ":443" != b && a + ":443" != c && b + ":443" != a && b + ":443" != c
        && c + ":443" != a && c + ":443" != b
      && a + ":443" != b + ":443" && a + ":443" != c + ":443" && b + ":443" != c + ":443"
  {
    var a, b, c, port := "api.github.com", "github.com", "api.openai.com", ":443";
    assert |a| == 14 && |b| == 10 && |c| == 14 && |port| == 4;
    assert a[4] == 'g' && c[4] == 'o';
    assert (a + port)[4] == 'g' && (c + port)[4] == 'o';
    assert (b + port)[0] == 'g' && a[0] == 'a' && c[0] == 'a';
  }

  /** An allowed request names an allowed repository or model of its provider, and a request that can
      carry a body never exceeds the limit. */
  lemma AllowedTarget(p: Policy, c: Call)
    requires Evaluate(p, c).Some?
    ensures var t := Evaluate(p, c).value;
      match t.operation
      case RestRead =>
        t.provider == GitHub && t.host == ApiGitHub && t.repository in p.repositories
          && (c.verb == "GET" || c.verb == "HEAD")
      case GitRead => t.provider == GitHub && t.host == PlainGitHub && t.repository in p.repositories
                      && ((c.verb == "GET" && c.body == "" && c.contentType == "")
                      || (c.verb == "POST" && 0 < |c.body| <= p.maxBodyBytes))
      case ResponsesText =>
        t.provider == OpenAI && t.host == ApiOpenAI && t.repository == "" && c.verb == "POST"
          && 0 < |c.body| <= p.maxBodyBytes
      case _ => false
  {
    hide ParseAddress, Segments, RepositoryPart, StrictBody, ValidUTF8, ValidChildSegment, TrimSuffix;
  }

  // ---- exactly which addresses are allowed --------------------------------------------------------------------

  function QueryText(query: Option<string>): string { match query case None => "" case Some(q) => "?" + q }

  /** What an address may be spelled with apart from its two separators. */
  predicate AddressText(s: string) { Ascii(s) && '%' !in s && '#' !in s }

  predicate PathText(s: string) { forall i :: 0 <= i < |s| ==> PathChar(s[i]) }

  lemma PartsAreSpelled(rest: string)
    requires ParseParts(rest).Some?
    ensures var u := ParseParts(rest).value;
      rest == u.authority + (u.path + QueryText(u.query)) && u.path != "" && u.path[0] == '/' && PathText(u.path)
  {
    hide IndexOf, PathChar;
    var a, q := IndexOf(rest, {'/', '?'}), IndexOf(rest, {'?'});
    assert rest[a..q][0] == rest[a];
    assert rest == rest[..a] + (rest[a..q] + rest[q..]);
    assert q < |rest| ==> rest[q..] == "?" + rest[q + 1..];
  }

  lemma FirstAt(s: string, cs: set<char>, n: nat)
    requires n <= |s| && (forall i :: 0 <= i < n ==> s[i] !in cs) && (n < |s| ==> s[n] in cs)
    ensures IndexOf(s, cs) == n
  {
    hide IndexOf;
  }

  lemma NoQuestion(path: string)
    requires PathText(path)
    ensures '?' !in path
  {
  }

  lemma SpelledParts(authority: string, path: string, query: Option<string>)
    requires '/' !in authority && '?' !in authority && path != "" && path[0] == '/' && PathText(path)
    ensures ParseParts(authority + (path + QueryText(query))) == Some(Address(authority, path, query))
  {
    hide IndexOf, PathChar;
    var tail, whole := QueryText(query), path + QueryText(query);
    var rest, end := authority + whole, |authority| + |path|;
    assert rest[..|authority|] == authority && rest[|authority|..] == whole && rest[|authority|] == whole[0];
    assert rest[|authority|..end] == path && rest[end..] == tail;
    NoQuestion(path);
    assert forall i :: 0 <= i < |authority| ==> rest[i] == authority[i];
    assert forall i :: |authority| <= i < end ==> rest[i] == path[i - |authority|];
    assert query.Some? ==> end < |rest| && rest[end] == '?' && rest[end + 1..] == query.value;
    FirstAt(rest, {'/', '?'}, |authority|);
    FirstAt(rest, {'?'}, end);
  }

  lemma TextJoined(a: string, b: string)
    requires AddressText(a) && AddressText(b)
    ensures AddressText(a + b)
  {
  }

  lemma PathIsText(path: string)
    requires PathText(path)
    ensures AddressText(path)
  {
  }

  /** An accepted address is its own spelling, part by part. */
  lemma ParsedIsSpelled(raw: string)
    requires ParseAddress(raw).Some?
    ensures var u := ParseAddress(raw).value;
      raw == "https://" + (u.authority + (u.path + QueryText(u.query))) && u.path != "" && u.path[0] == '/'
        && PathText(u.path) && |raw| <= MAX_URL_BYTES
  {
    hide ParseParts, Ascii, PathText, QueryText;
    PartsAreSpelled(raw[8..]);
    assert raw == raw[..8] + raw[8..] && raw[..8] == "https://";
  }

  lemma SpelledIsParsed(raw: string, authority: string, path: string, query: Option<string>)
    requires raw == "https://" + (authority + (path + QueryText(query))) && |raw| <= MAX_URL_BYTES
    requires AddressText(authority) && '/' !in authority && '?' !in authority
    requires path != "" && path[0] == '/' && PathText(path) && (query.Some? ==> AddressText(query.value))
    ensures ParseAddress(raw) == Some(Address(authority, path, query))
  {
    hide ParseParts, PathText;
    var scheme, rest := "https://", authority + (path + QueryText(query));
    assert raw[8..] == rest && raw[..8] == scheme;
    SpelledParts(authority, path, query);
    assert AddressText(raw) by {
      hide AddressText;
      SmallTexts();
      PathIsText(path);
      if query.Some? { TextJoined("?", query.value); }
      TextJoined(path, QueryText(query));
      TextJoined(authority, path + QueryText(query));
      TextJoined(scheme, rest);
    }
  }

  lemma SmallTexts()
    ensures AddressText("https://") && AddressText("?") && AddressText("") && AddressText(":443")
  {
  }

  /** This address of this host, with or without the port. */
  predicate IsAt(url: string, host: string, path: string, query: Option<string>) {
    |url| <= MAX_URL_BYTES
      && (url == "https://" + (host + (path + QueryText(query)))
      || url == "https://" + ((host + ":443") + (path + QueryText(query))))
  }

  predicate HostText(host: string) { AddressText(host) && '/' !in host && '?' !in host }

  /** One address of a host exactly spells one path and query. */
  lemma AddressExactly(url: string, host: string, path: string, query: Option<string>)
    requires HostText(host) && path != "" && path[0] == '/' && PathText(path)
      && (query.Some? ==> AddressText(query.value))
    ensures IsAt(url, host, path, query)
            <==> AddressOf(url, host).Some? && AddressOf(url, host).value.path == path
                 && AddressOf(url, host).value.query == query
  {
    hide ParseAddress, PathText, AddressText, Ascii;
    if IsAt(url, host, path, query) {
      if url == "https://" + (host + (path + QueryText(query))) {
        SpelledIsParsed(url, host, path, query);
      } else {
        PortText(host);
        SpelledIsParsed(url, host + ":443", path, query);
      }
    }
    if AddressOf(url, host).Some? { ParsedIsSpelled(url); }
  }

  lemma PortText(host: string)
    requires HostText(host)
    ensures HostText(host + ":443")
  {
  }

  lemma {:induction false} JoinedPath(parts: seq<string>)
    requires forall k :: 0 <= k < |parts| ==> PathText(parts[k])
    ensures PathText(Join(parts, '/'))
  {
    if |parts| > 1 { JoinedPath(parts[1..]); }
  }

  lemma Hosts()
    ensures HostText("api.github.com") && HostText("github.com") && HostText("api.openai.com")
  {
    hide HostText;
    ApiGitHubHost();
    PlainGitHubHost();
    OpenAIHost();
  }

  lemma ApiGitHubHost()
    ensures HostText("api.github.com")
  {
  }

  lemma PlainGitHubHost()
    ensures HostText("github.com")
  {
  }

  lemma OpenAIHost()
    ensures HostText("api.openai.com")
  {
  }

  /** The owner and the name of a repository. */
  lemma RepositoryParts(r: string) returns (owner: string, name: string)
    requires RepositoryName(r)
    ensures RepositoryPart(owner) && RepositoryPart(name) && r == owner + "/" + name && '/' !in owner && '/' !in name
  {
    hide RepositoryPart, Split, Join;
    JoinOfSplit(r, '/');
    SplitParts(r, '/');
    var parts := Split(r, '/');
    owner, name := parts[0], parts[1];
    assert parts == [owner, name];
    JoinTwo(owner, name);
    assert r == owner + "/" + name;
  }

  lemma JoinTwo(a: string, b: string)
    ensures Join([a, b], '/') == a + "/" + b
  {
    assert [a, b][1..] == [b];
  }

  lemma JoinFour(a: string, b: string, c: string, d: string)
    ensures Join([a, b, c], '/') == a + "/" + b + "/" + c
    ensures Join([a, b, c, d], '/') == a + "/" + b + "/" + c + "/" + d
  {
    JoinTwo(b, c);
    JoinTwo(c, d);
    assert [a, b, c][1..] == [b, c] && [a, b, c, d][1..] == [b, c, d] && [b, c, d][1..] == [c, d];
  }

  lemma RepoPath(s: string)
    requires RepositoryPart(s)
    ensures PathText(s) && '/' !in s
  {
  }

  predicate DiscoveryCall(c: Call, r: string) {
    c.verb == "GET" && c.contentType == "" && c.body == ""
      && IsAt(c.url, "github.com", "/" + r + ".git/info/refs", Some("service=git-upload-pack"))
  }

  predicate UploadCall(p: Policy, c: Call, r: string) {
    c.verb == "POST" && c.contentType == GitUploadPack() && 0 < |c.body| <= p.maxBodyBytes
      && IsAt(c.url, "github.com", "/" + r + ".git/git-upload-pack", None)
  }

  /** The two paths below a repository, segment by segment. */
  lemma GitSegments(path: string, owner: string, name: string)
    requires path != "" && path[0] == '/' && RepositoryPart(owner) && RepositoryPart(name)
    ensures Split(path[1..], '/') == [owner, name + ".git", "info", "refs"]
      <==> path == "/" + (owner + "/" + name) + ".git/info/refs"
    ensures Split(path[1..], '/') == [owner, name + ".git", "git-upload-pack"]
      <==> path == "/" + (owner + "/" + name) + ".git/git-upload-pack"
  {
    hide Split, Join, RepositoryPart;
    RepoPath(owner);
    RepoPath(name);
    var git := name + ".git";
    assert '/' !in git;
    SplitExactly(path[1..], '/', [owner, git, "info", "refs"]);
    SplitExactly(path[1..], '/', [owner, git, "git-upload-pack"]);
    JoinFour(owner, git, "info", "refs");
    JoinFour(owner, git, "git-upload-pack", "");
    assert path == "/" + path[1..];
    assert "/" + (owner + "/" + name) + ".git/info/refs" == "/" + (owner + "/" + git + "/" + "info" + "/" + "refs");
    assert "/" + (owner + "/" + name) + ".git/git-upload-pack" == "/" + (owner + "/" + git + "/" + "git-upload-pack");
  }

  /** The Git reads that are allowed: two addresses of every allowed repository, each in one way. */
  lemma GitExactly(p: Policy, c: Call, r: string)
    requires ValidPolicy(p)
    ensures AuthorizeGit(p, c) == Some(Target(GitHub, r, GitRead, PlainGitHub))
      <==> r in p.repositories && (DiscoveryCall(c, r) || UploadCall(p, c, r))
  {
    if r in p.repositories {
      var owner, name := RepositoryParts(r);
      if DiscoveryCall(c, r) || UploadCall(p, c, r) { GitCallAllowed(p, c, owner, name); }
    }
    if AuthorizeGit(p, c) == Some(Target(GitHub, r, GitRead, PlainGitHub)) { AllowedGitCall(p, c, r); }
  }

  lemma GitPathText(owner: string, name: string)
    requires RepositoryPart(owner) && RepositoryPart(name)
    ensures PathText("/" + (owner + "/" + name) + ".git/info/refs")
      && PathText("/" + (owner + "/" + name) + ".git/git-upload-pack")
    ensures AddressText("service=git-upload-pack") && TrimSuffix(name + ".git", ".git") == name && name + ".git" != name
  {
    hide RepositoryPart;
    RepoPath(owner);
    RepoPath(name);
    assert (name + ".git")[|name|..] == ".git" && (name + ".git")[..|name|] == name;
  }

  lemma GitCallAllowed(p: Policy, c: Call, owner: string, name: string)
    requires RepositoryPart(owner) && RepositoryPart(name) && owner + "/" + name in p.repositories
    requires DiscoveryCall(c, owner + "/" + name) || UploadCall(p, c, owner + "/" + name)
    ensures AuthorizeGit(p, c) == Some(Target(GitHub, owner + "/" + name, GitRead, PlainGitHub))
  {
    hide ParseAddress, RepositoryPart, PathText, Split, TrimSuffix, IsAt, AddressOf;
    Hosts();
    GitPathText(owner, name);
    if DiscoveryCall(c, owner + "/" + name) {
      AddressExactly(c.url, "github.com", "/" + (owner + "/" + name) + ".git/info/refs",
        Some("service=git-upload-pack"));
    } else {
      AddressExactly(c.url, "github.com", "/" + (owner + "/" + name) + ".git/git-upload-pack", None);
    }
    var path := AddressOf(c.url, "github.com").value.path;
    GitSegments(path, owner, name);
    PathIsAscii(path);
  }

  lemma PathIsAscii(path: string)
    requires PathText(path)
    ensures Ascii(path)
  {
  }

  lemma AllowedGitCall(p: Policy, c: Call, r: string)
    requires AuthorizeGit(p, c) == Some(Target(GitHub, r, GitRead, PlainGitHub))
    ensures r in p.repositories && (DiscoveryCall(c, r) || UploadCall(p, c, r))
  {
    hide ParseAddress, RepositoryPart, PathText, Split, IsAt, AddressOf;
    var u := AddressOf(c.url, "github.com").value;
    var segments := Segments(u.path).value;
    var owner, name := segments[0], TrimSuffix(segments[1], ".git");
    assert segments[1] == name + ".git";
    Hosts();
    GitPathText(owner, name);
    GitSegments(u.path, owner, name);
    if Discovery(c, segments, u.query) {
      assert segments == [owner, name + ".git", "info", "refs"];
      AddressExactly(c.url, "github.com", u.path, u.query);
    } else {
      assert segments == [owner, name + ".git", "git-upload-pack"];
      AddressExactly(c.url, "github.com", u.path, u.query);
    }
  }

  predicate RestChild(s: string) { ValidChildSegment(s) && PathText(s) && '/' !in s }

  predicate RestAddress(url: string, r: string, children: seq<string>) {
    (forall i :: 0 <= i < |children| ==> RestChild(children[i]))
      && IsAt(url, "api.github.com", "/" + Join(["repos", r] + children, '/'), None)
  }

  /** The REST reads that are allowed: every address at or below an allowed repository. */
  lemma RestExactly(p: Policy, c: Call, r: string)
    requires ValidPolicy(p)
    ensures AuthorizeRest(p, c) == Some(Target(GitHub, r, RestRead, ApiGitHub))
            <==> r in p.repositories && (c.verb == "GET" || c.verb == "HEAD")
                 && exists children :: RestAddress(c.url, r, children)
  {
    if r in p.repositories && (c.verb == "GET" || c.verb == "HEAD")
      && exists children :: RestAddress(c.url, r, children) {
      var owner, name := RepositoryParts(r);
      var children :| RestAddress(c.url, r, children);
      RestCallAllowed(p, c, owner, name, children);
    }
    if AuthorizeRest(p, c) == Some(Target(GitHub, r, RestRead, ApiGitHub)) { var _ := AllowedRestCall(p, c, r); }
  }

  lemma JoinMore(a: string, parts: seq<string>)
    ensures Join([a] + parts, '/') == a + (if parts == [] then "" else "/" + Join(parts, '/'))
  {
    assert ([a] + parts)[1..] == parts;
  }

  /** A repository counts as one part of a path or as two. */
  lemma NestedJoin(owner: string, name: string, children: seq<string>)
    ensures Join(["repos", owner, name] + children, '/') == Join(["repos", owner + "/" + name] + children, '/')
  {
    hide Join;
    var tail := if children == [] then "" else "/" + Join(children, '/');
    JoinMore(name, children);
    JoinMore(owner, [name] + children);
    JoinMore(owner + "/" + name, children);
    assert owner + ("/" + (name + tail)) == owner + "/" + name + tail;
    JoinMore("repos", [owner] + ([name] + children));
    JoinMore("repos", [owner + "/" + name] + children);
    assert ["repos", owner, name] + children == ["repos"] + ([owner] + ([name] + children));
    assert ["repos", owner + "/" + name] + children == ["repos"] + ([owner + "/" + name] + children);
  }

  lemma RestSegments(path: string, owner: string, name: string, children: seq<string>)
    requires path != "" && path[0] == '/' && RepositoryPart(owner) && RepositoryPart(name)
    requires forall i :: 0 <= i < |children| ==> '/' !in children[i]
    ensures Split(path[1..], '/') == ["repos", owner, name] + children
      <==> path == "/" + Join(["repos", owner + "/" + name] + children, '/')
  {
    hide Split, Join, RepositoryPart;
    RestParts(owner, name, children);
    SplitExactly(path[1..], '/', ["repos", owner, name] + children);
    NestedJoin(owner, name, children);
    Slashed(path, Join(["repos", owner + "/" + name] + children, '/'));
  }

  lemma RestParts(owner: string, name: string, children: seq<string>)
    requires RepositoryPart(owner) && RepositoryPart(name) && forall i :: 0 <= i < |children| ==> '/' !in children[i]
    ensures var parts := ["repos", owner, name] + children;
      |parts| == 3 + |children| && forall k :: 0 <= k < |parts| ==> '/' !in parts[k]
  {
    hide RepositoryPart;
    RepoPath(owner);
    RepoPath(name);
    var parts := ["repos", owner, name] + children;
    forall k | 0 <= k < |parts| ensures '/' !in parts[k] {
      if k >= 3 { assert parts[k] == children[k - 3]; }
    }
  }

  lemma Slashed(path: string, rest: string)
    requires path != "" && path[0] == '/'
    ensures path[1..] == rest <==> path == "/" + rest
  {
    assert path == "/" + path[1..];
  }

  lemma RestPathText(owner: string, name: string, children: seq<string>)
    requires RepositoryPart(owner) && RepositoryPart(name) && forall i :: 0 <= i < |children| ==> PathText(children[i])
    ensures PathText("/" + Join(["repos", owner + "/" + name] + children, '/'))
  {
    hide RepositoryPart, Join, PathText;
    NestedTexts(owner, name);
    var parts := ["repos", owner + "/" + name] + children;
    forall k | 0 <= k < |parts| ensures PathText(parts[k]) {
      if k >= 2 { assert parts[k] == children[k - 2]; }
    }
    JoinedPath(parts);
    SlashedPath(Join(parts, '/'));
  }

  lemma NestedTexts(owner: string, name: string)
    requires RepositoryPart(owner) && RepositoryPart(name)
    ensures PathText("repos") && PathText(owner + "/" + name)
  {
    RepoPath(owner);
    RepoPath(name);
    hide RepositoryPart;
  }

  lemma SlashedPath(path: string)
    requires PathText(path)
    ensures PathText("/" + path)
  {
  }

  lemma RestCallAllowed(p: Policy, c: Call, owner: string, name: string, children: seq<string>)
    requires RepositoryPart(owner) && RepositoryPart(name) && owner + "/" + name in p.repositories
    requires (c.verb == "GET" || c.verb == "HEAD") && RestAddress(c.url, owner + "/" + name, children)
    ensures AuthorizeRest(p, c) == Some(Target(GitHub, owner + "/" + name, RestRead, ApiGitHub))
  {
    hide ParseAddress, RepositoryPart, ValidChildSegment, PathText, Split, Join, IsAt, AddressOf;
    var path := "/" + Join(["repos", owner + "/" + name] + children, '/');
    Hosts();
    RestPathText(owner, name, children);
    AddressExactly(c.url, "api.github.com", path, None);
    RestSegments(path, owner, name, children);
    PathIsAscii(path);
    var segments := Split(path[1..], '/');
    assert forall i :: 3 <= i < |segments| ==> segments[i] == children[i - 3];
  }

  lemma AllowedRestCall(p: Policy, c: Call, r: string) returns (children: seq<string>)
    requires AuthorizeRest(p, c) == Some(Target(GitHub, r, RestRead, ApiGitHub))
    ensures r in p.repositories && (c.verb == "GET" || c.verb == "HEAD") && RestAddress(c.url, r, children)
  {
    hide ParseAddress, RepositoryPart, ValidChildSegment, PathText, Split, Join, IsAt, AddressOf;
    var u := AddressOf(c.url, "api.github.com").value;
    var segments := Segments(u.path).value;
    var owner, name := segments[1], segments[2];
    children := segments[3..];
    assert segments == ["repos", owner, name] + children;
    AddressParts(c.url, "api.github.com");
    SegmentTexts(u.path);
    Hosts();
    RestSegments(u.path, owner, name, children);
    AddressExactly(c.url, "api.github.com", u.path, None);
    forall i | 0 <= i < |children| ensures RestChild(children[i]) { assert children[i] == segments[i + 3]; }
  }

  lemma AddressParts(url: string, host: string)
    requires AddressOf(url, host).Some?
    ensures var u := AddressOf(url, host).value; u.path != "" && u.path[0] == '/' && PathText(u.path)
  {
    hide ParseAddress, PathText;
    ParsedIsSpelled(url);
  }

  lemma SegmentTexts(path: string)
    requires path != "" && PathText(path)
    ensures forall k :: 0 <= k < |Split(path[1..], '/')| ==>
      PathText(Split(path[1..], '/')[k]) && '/' !in Split(path[1..], '/')[k]
  {
    hide Split, PathChar;
    SplitParts(path[1..], '/');
    var parts := Split(path[1..], '/');
    forall k | 0 <= k < |parts| ensures PathText(parts[k]) && '/' !in parts[k] {
      forall i | 0 <= i < |parts[k]| ensures PathChar(parts[k][i]) {
        assert parts[k][i] in path[1..];
        var j :| 0 <= j < |path[1..]| && path[1..][j] == parts[k][i];
        assert path[j + 1] == parts[k][i];
      }
    }
  }

  lemma OpenAIExactly(p: Policy, c: Call)
    ensures AuthorizeOpenAI(p, c) == Some(Target(OpenAI, "", ResponsesText, ApiOpenAI))
            <==> c.verb == "POST" && c.contentType == "application/json"
                 && IsAt(c.url, "api.openai.com", "/v1/responses", None)
                 && 0 < |c.body| <= p.maxBodyBytes && ValidUTF8(c.body)
                 && StrictBody(c.body, p.models, p.maxOutputTokens)
  {
    hide ParseAddress, ValidUTF8, StrictBody, IsAt, AddressOf;
    Hosts();
    assert PathText("/v1/responses");
    AddressExactly(c.url, "api.openai.com", "/v1/responses", None);
  }

  // ---- exactly which bodies are allowed --------------------------------------------------------------------------

  /** A member of that name, in any letter case, with that value. */
  predicate HasMember(ps: seq<Pair>, name: string, value: Json) {
    exists i :: 0 <= i < |ps| && Lower(ps[i].0) == name && ps[i].1 == value
  }

  /** No two names are the same but for letter case. */
  predicate FoldedNamesDistinct(ps: seq<Pair>) { forall i, j :: 0 <= i < j < |ps| ==> Lower(ps[i].0) != Lower(ps[j].0) }

  predicate PlainPairs(ps: seq<Pair>) {
    FoldedNamesDistinct(ps) && forall i :: 0 <= i < |ps| ==> WellFormed(ps[i].1) && Scanner.KeysDistinct(ps[i].1)
  }

  predicate NamesModel(ps: seq<Pair>, models: set<string>) { exists m :: m in models && HasMember(ps, "model", Str(m)) }

  ghost predicate GivesInput(ps: seq<Pair>) { exists t: string :: t != "" && HasMember(ps, "input", Str(t)) }

  predicate LimitsTokens(ps: seq<Pair>, limit: nat) {
    exists n: nat :: 0 < n <= limit && HasMember(ps, "max_output_tokens", Num(Decimal(n)))
  }

  /** Instructions are text; or null, if they are not spelled exactly so. */
  predicate InstructionsFit(ps: seq<Pair>) {
    forall i :: 0 <= i < |ps| && Lower(ps[i].0) == "instructions" ==>
      ps[i].1.Str? || (ps[i].1.Null? && ps[i].0 != "instructions")
  }

  ghost predicate AllowedMembers(ps: seq<Pair>, models: set<string>, limit: nat) {
    (forall i :: 0 <= i < |ps| ==> KnownName(ps[i].0))
    && NamesModel(ps, models) && GivesInput(ps) && HasMember(ps, "store", Bool(false))
    && HasMember(ps, "stream", Bool(false))
    && LimitsTokens(ps, limit) && InstructionsFit(ps)
  }

  lemma {:induction false} KnownPairs(ps: seq<Pair>)
    ensures KnownFields(FromPairs(ps)) <==> forall i :: 0 <= i < |ps| ==> KnownName(ps[i].0)
  {
    hide KnownName;
    if ps != [] {
      KnownPairs(ps[1..]);
      if forall i :: 0 <= i < |ps| ==> KnownName(ps[i].0) {
        forall i | 0 <= i < |ps[1..]| ensures KnownName(ps[1..][i].0) { assert ps[1..][i] == ps[i + 1]; }
      }
      if KnownFields(FromPairs(ps)) {
        forall i | 0 <= i < |ps| ensures KnownName(ps[i].0) { if i > 0 { assert ps[i] == ps[1..][i - 1]; } }
      }
    }
  }

  lemma {:induction false} TypedPairs(ps: seq<Pair>)
    ensures TypedFields(FromPairs(ps)) <==> forall i :: 0 <= i < |ps| ==> TypedField(ps[i].0, ps[i].1)
  {
    hide TypedField;
    if ps != [] {
      TypedPairs(ps[1..]);
      if forall i :: 0 <= i < |ps| ==> TypedField(ps[i].0, ps[i].1) {
        forall i | 0 <= i < |ps[1..]| ensures TypedField(ps[1..][i].0, ps[1..][i].1) { assert ps[1..][i] == ps[i + 1]; }
      }
      if TypedFields(FromPairs(ps)) {
        forall i | 0 <= i < |ps| ensures TypedField(ps[i].0, ps[i].1) { if i > 0 { assert ps[i] == ps[1..][i - 1]; } }
      }
    }
  }

  lemma {:induction false} FieldOfPairs(ps: seq<Pair>, name: string)
    ensures HasField(FromPairs(ps), name) <==> exists i :: 0 <= i < |ps| && ps[i].0 == name
  {
    if ps != [] {
      FieldOfPairs(ps[1..], name);
      if i: int :| 0 <= i < |ps| && ps[i].0 == name { if i > 0 { assert ps[1..][i - 1].0 == name; } }
      if HasField(FromPairs(ps[1..]), name) {
        var i :| 0 <= i < |ps[1..]| && ps[1..][i].0 == name;
        assert ps[i + 1].0 == name;
      } else if ps[0].0 == name {
        assert ps[0].0 == name;
      }
    }
  }

  /** With distinct folded names a lookup finds the one member of that name. */
  lemma {:induction false} LookupOfPairs(ps: seq<Pair>, name: string)
    requires FoldedNamesDistinct(ps)
    ensures forall i :: 0 <= i < |ps| && Lower(ps[i].0) == name ==> FoldedLookup(FromPairs(ps), name) == Some(ps[i].1)
    ensures FoldedLookup(FromPairs(ps), name).Some? ==> HasMember(ps, name, FoldedLookup(FromPairs(ps), name).value)
  {
    hide Lower;
    if ps != [] {
      var rest := ps[1..];
      forall i, j | 0 <= i < j < |rest|
        ensures Lower(rest[i].0) != Lower(rest[j].0)
      {
        assert rest[i] == ps[i + 1] && rest[j] == ps[j + 1];
      }
      LookupOfPairs(rest, name);
      var later := FoldedLookup(FromPairs(rest), name);
      if later.Some? {
        var i :| 0 <= i < |rest| && Lower(rest[i].0) == name && rest[i].1 == later.value;
        assert Lower(ps[i + 1].0) == name && ps[i + 1].1 == later.value && Lower(ps[0].0) != name;
      }
      forall i | 0 <= i < |ps| && Lower(ps[i].0) == name ensures FoldedLookup(FromPairs(ps), name) == Some(ps[i].1) {
        if i > 0 { assert rest[i - 1] == ps[i]; }
      }
    }
  }

  lemma LookupExactly(ps: seq<Pair>, name: string, value: Json)
    requires FoldedNamesDistinct(ps)
    ensures FoldedLookup(FromPairs(ps), name) == Some(value) <==> HasMember(ps, name, value)
  {
    hide FoldedLookup, Lower, FromPairs;
    LookupOfPairs(ps, name);
  }

  /** A non-negative number without sign, fraction or exponent is the decimal spelling of its value. */
  lemma DigitsAreDecimal(l: string)
    requires WellFormed(Num(l)) && AllDigits(l)
    ensures l != "" && l == Decimal(DecimalValue(l))
  {
    NumberWithoutZeros(l);
    hide Decimal, DecimalValue;
    DecimalOfDecimalValue(l);
  }

  lemma NumberWithoutZeros(l: string)
    requires WellFormed(Num(l)) && AllDigits(l)
    ensures l != "" && (|l| > 1 ==> l[0] != '0')
  {
  }

  lemma TokensExactly(ps: seq<Pair>, limit: nat)
    requires PlainPairs(ps)
    ensures LimitsTokens(ps, limit)
            <==> match FoldedLookup(FromPairs(ps), "max_output_tokens")
                 case Some(Num(l)) => AllDigits(l) && 0 < DecimalValue(l) <= limit
                 case _ => false
  {
    hide FoldedLookup, Lower, FromPairs, Decimal, DecimalValue, AllDigits, Scanner.KeysDistinct, WellFormed;
    var name := "max_output_tokens";
    LookupOfPairs(ps, name);
    var found := FoldedLookup(FromPairs(ps), name);
    if found.Some? && found.value.Num? && AllDigits(found.value.lexeme)
      && 0 < DecimalValue(found.value.lexeme) <= limit {
      var i :| 0 <= i < |ps| && Lower(ps[i].0) == name && ps[i].1 == found.value;
      assert WellFormed(ps[i].1);
      DigitsAreDecimal(found.value.lexeme);
      assert HasMember(ps, name, Num(Decimal(DecimalValue(found.value.lexeme))));
    }
    if LimitsTokens(ps, limit) {
      var n: nat :| 0 < n <= limit && HasMember(ps, name, Num(Decimal(n)));
      LookupExactly(ps, name, Num(Decimal(n)));
      DecimalValueOfDecimal(n);
    }
  }

  lemma ModelExactly(ps: seq<Pair>, models: set<string>)
    requires FoldedNamesDistinct(ps)
    ensures NamesModel(ps, models)
            <==> match FoldedLookup(FromPairs(ps), "model")
                 case Some(Str(m)) => m in models
                 case _ => false
  {
    hide FoldedLookup, Lower, FromPairs;
    LookupOfPairs(ps, "model");
  }

  lemma InputExactly(ps: seq<Pair>)
    requires FoldedNamesDistinct(ps)
    ensures GivesInput(ps) <==> match FoldedLookup(FromPairs(ps), "input") case Some(Str(t)) => t != "" case _ => false
  {
    hide FoldedLookup, Lower, FromPairs;
    LookupOfPairs(ps, "input");
  }

  predicate NoNullInstructions(f: Fields) {
    !((FoldedLookup(f, "instructions").None? || FoldedLookup(f, "instructions") == Some(Null))
      && HasField(f, "instructions"))
  }

  lemma LowerInstructions()
    ensures Lower("instructions") == "instructions"
  {
  }

  lemma InstructionsExactly(ps: seq<Pair>)
    requires FoldedNamesDistinct(ps)
    ensures TypedFields(FromPairs(ps)) && NoNullInstructions(FromPairs(ps)) ==> InstructionsFit(ps)
    ensures InstructionsFit(ps) ==> NoNullInstructions(FromPairs(ps))
  {
    hide FoldedLookup, Lower, FromPairs, HasField, TypedFields;
    LowerInstructions();
    LookupOfPairs(ps, "instructions");
    FieldOfPairs(ps, "instructions");
    TypedPairs(ps);
    if TypedFields(FromPairs(ps)) && NoNullInstructions(FromPairs(ps)) {
      forall i | 0 <= i < |ps| && Lower(ps[i].0) == "instructions"
        ensures ps[i].1.Str? || (ps[i].1.Null? && ps[i].0 != "instructions")
      {
        assert TypedField(ps[i].0, ps[i].1);
        OnlyText("instructions");
      }
    }
  }

  lemma OnlyText(name: string)
    requires name == "instructions"
    ensures name !in {"store", "stream", "max_output_tokens"}
  {
    assert |"store"| == 5 && |"stream"| == 6 && |"max_output_tokens"| == 17 && |"instructions"| == 12;
  }

  /** Members that are allowed have the types that the decoder wants. */
  lemma AllowedAreTyped(ps: seq<Pair>, models: set<string>, limit: nat)
    requires FoldedNamesDistinct(ps) && limit < 0x8000_0000_0000_0000 && AllowedMembers(ps, models, limit)
    ensures TypedFields(FromPairs(ps))
  {
    hide FoldedLookup, Lower, FromPairs, TypedFields, Decimal, IntegerLexeme;
    TypedPairs(ps);
    forall i | 0 <= i < |ps| ensures TypedField(ps[i].0, ps[i].1) { AllowedIsTyped(ps, models, limit, i); }
  }

  lemma AllowedIsTyped(ps: seq<Pair>, models: set<string>, limit: nat, i: nat)
    requires i < |ps| && FoldedNamesDistinct(ps) && limit < 0x8000_0000_0000_0000 && AllowedMembers(ps, models, limit)
    ensures TypedField(ps[i].0, ps[i].1)
  {
    hide Lower, Decimal, IntegerLexeme, FoldedNamesDistinct;
    var name := Lower(ps[i].0);
    assert KnownName(ps[i].0);
    if name == "model" {
      var m :| m in models && HasMember(ps, "model", Str(m));
      OneMember(ps, name, Str(m), i);
    } else if name == "input" {
      var t: string :| t != "" && HasMember(ps, "input", Str(t));
      OneMember(ps, name, Str(t), i);
    } else if name == "store" || name == "stream" {
      OneMember(ps, name, Bool(false), i);
    } else if name == "max_output_tokens" {
      var n: nat :| 0 < n <= limit && HasMember(ps, name, Num(Decimal(n)));
      OneMember(ps, name, Num(Decimal(n)), i);
      DecimalIsInteger(n);
    }
  }

  lemma OneMember(ps: seq<Pair>, name: string, value: Json, i: nat)
    requires FoldedNamesDistinct(ps) && HasMember(ps, name, value) && i < |ps| && Lower(ps[i].0) == name
    ensures ps[i].1 == value
  {
    hide Lower;
    var j :| 0 <= j < |ps| && Lower(ps[j].0) == name && ps[j].1 == value;
    assert i == j;
  }

  lemma DecimalIsInteger(n: nat)
    requires n < 0x8000_0000_0000_0000
    ensures IntegerLexeme(Decimal(n))
  {
    hide Decimal, DecimalValue;
    DecimalValueOfDecimal(n);
    assert IsDigit(Decimal(n)[0]);
  }

  /** Of any object whose names differ by more than letter case, in any order: it is allowed exactly when
      it has the five required members, with an allowed model, some input, no storing and no
      streaming, and a number of tokens within the limit; perhaps instructions; and nothing else. */
  lemma BodyExactly(models: set<string>, limit: nat, ps: seq<Pair>)
    requires PlainPairs(ps) && limit < 0x8000_0000_0000_0000
    ensures StrictBody(Encode(Obj(FromPairs(ps))), models, limit) <==> AllowedMembers(ps, models, limit)
  {
    hide FoldedLookup, KnownFields, TypedFields, HasField, Lower, Decimal, DecimalValue, AllDigits, FromPairs, Encode,
      Decode,
      WellFormed, Scanner.KeysDistinct, LimitsTokens, NamesModel, GivesInput, InstructionsFit,
      FoldedNamesDistinct, HasMember, KnownName;
    var f := FromPairs(ps);
    BodyDecodes(ps);
    KnownPairs(ps);
    ModelExactly(ps, models);
    InputExactly(ps);
    LookupExactly(ps, "store", Bool(false));
    LookupExactly(ps, "stream", Bool(false));
    TokensExactly(ps, limit);
    InstructionsExactly(ps);
    if AllowedMembers(ps, models, limit) { AllowedAreTyped(ps, models, limit); }
  }

  lemma BodyDecodes(ps: seq<Pair>)
    requires PlainPairs(ps)
    ensures var v := Obj(FromPairs(ps)); Decode(Encode(v)) == Some(v) && Scanner.KeysDistinct(v)
  {
    hide Decode, Encode, FromPairs, Scanner.KeysDistinct;
    WellFormedPairs(ps);
    assert NamesDistinct(ps) by {
      forall i, j | 0 <= i < j < |ps| ensures ps[i].0 != ps[j].0 { assert Lower(ps[i].0) != Lower(ps[j].0); }
    }
    Scanner.KeysDistinctObject(ps);
    DecodeOfEncode(Obj(FromPairs(ps)));
  }

  // ---- instructions that are not text ----------------------------------------------------------------------------

  /** A body with a member of that name that is null. */
  function NullBody(name: string): seq<Pair> {
    [("model", Str("m")), ("input", Str("x")), ("store", Bool(false)), ("stream", Bool(false)),
     ("max_output_tokens", Num(Decimal(1))), (name, Null)]
  }

  lemma LowerNames()
    ensures Lower("model") == "model" && Lower("input") == "input" && Lower("store") == "store"
      && Lower("stream") == "stream"
  {
  }

  lemma LowerLongNames()
    ensures Lower("max_output_tokens") == "max_output_tokens" && Lower("instructions") == "instructions"
    ensures Lower("Instructions") == "instructions" && "Instructions" != "instructions"
  {
    assert "Instructions"[0] == 'I' && "instructions"[0] == 'i';
  }

  lemma NullBodyIsPlain(name: string)
    requires Lower(name) == "instructions"
    ensures PlainPairs(NullBody(name))
  {
    hide Lower, Decimal;
    LowerNames();
    LowerLongNames();
    DecimalIsNumber();
    var m, i, s := "model", "input", "store";
    assert m[0] == 'm' && i[0] == 'i' && s[0] == 's';
    assert |"stream"| == 6 && |"max_output_tokens"| == 17 && |"instructions"| == 12;
  }

  lemma DecimalIsNumber()
    ensures WellFormed(Num(Decimal(1))) && Scanner.KeysDistinct(Num(Decimal(1)))
  {
    assert Decimal(1) == "1";
  }

  /** The other members are in order, so only the spelling decides. */
  lemma NullBodyMembers(name: string)
    requires Lower(name) == "instructions"
    ensures AllowedMembers(NullBody(name), {"m"}, 1) <==> name != "instructions"
  {
    hide Lower, Decimal;
    LowerNames();
    LowerLongNames();
    var ps := NullBody(name);
    assert Lower(ps[0].0) == "model" && Lower(ps[1].0) == "input" && Lower(ps[2].0) == "store"
      && Lower(ps[3].0) == "stream" && Lower(ps[4].0) == "max_output_tokens" && Lower(ps[5].0) == "instructions";
    assert HasMember(ps, "model", Str("m"));
    assert HasMember(ps, "input", Str("x"));
    assert HasMember(ps, "max_output_tokens", Num(Decimal(1)));
    hide HasMember;
    FiveNames("model", "input", "store", "stream", "max_output_tokens");
  }

  lemma FiveNames(a: string, b: string, c: string, d: string, e: string)
    requires a == "model" && b == "input" && c == "store" && d == "stream" && e == "max_output_tokens"
    ensures "instructions" !in {a, b, c, d, e}
  {
    assert |"instructions"| == 12;
  }

  /** Null in the place of instructions is refused under the exact name and allowed under another spelling. */
  lemma NullInstructionsAllowed()
    ensures StrictBody(Encode(Obj(FromPairs(NullBody("Instructions")))), {"m"}, 1)
    ensures !StrictBody(Encode(Obj(FromPairs(NullBody("instructions")))), {"m"}, 1)
  {
    hide Lower, Decimal, StrictBody, PlainPairs, FromPairs, Encode, AllowedMembers, NullBody;
    LowerLongNames();
    NullBodyIsPlain("Instructions");
    NullBodyIsPlain("instructions");
    NullBodyMembers("Instructions");
    NullBodyMembers("instructions");
    BodyExactly({"m"}, 1, NullBody("Instructions"));
    BodyExactly({"m"}, 1, NullBody("instructions"));
  }
}
