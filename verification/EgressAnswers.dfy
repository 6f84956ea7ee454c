/** The broker in the terms of those at its ends: which requests it allows, which spellings of a capability it
    takes, what exactly it sends, and which answers it passes on. */
module EgressAnswers {
  import opened Text
  import opened Capability
  import opened EgressPolicy
  import opened EgressExchange
  import Base64
  import Json

  // ---- what is allowed --------------------------------------------------------------------------------

  /** The three kinds of requests. */
  ghost predicate AllowedAs(p: Policy, c: Call, t: Target) {
    match t
    case Target(GitHub, r, RestRead, ApiGitHub) =>
      r in p.repositories && c.verb in {"GET", "HEAD"} && exists children :: RestAddress(c.url, r, children)
    case Target(GitHub, r, GitRead, PlainGitHub) =>
      r in p.repositories
      && ((c.verb == "GET" && c.contentType == "" && c.body == ""
           && IsAt(c.url, "github.com", "/" + r + ".git/info/refs", Some("service=git-upload-pack")))
          || (c.verb == "POST" && c.contentType == "application/x-git-upload-pack-request"
              && 0 < |c.body| <= p.maxBodyBytes && IsAt(c.url, "github.com", "/" + r + ".git/git-upload-pack", None)))
    case Target(OpenAI, "", ResponsesText, ApiOpenAI) =>
      c.verb == "POST" && c.contentType == "application/json" && IsAt(c.url, "api.openai.com", "/v1/responses", None)
      && 0 < |c.body| <= p.maxBodyBytes && ValidUTF8(c.body) && StrictBody(c.body, p.models, p.maxOutputTokens)
    case _ => false
  }

  /** The policy allows a request as a target if and only if it is of that target's kind. */
  lemma EvaluatedExactly(p: Policy, c: Call, t: Target)
    requires ValidPolicy(p)
    ensures Evaluate(p, c) == Some(t) <==> AllowedAs(p, c, t)
  {
    hide AuthorizeRest, AuthorizeGit, AuthorizeOpenAI, IsAt, RestAddress, StrictBody, ValidUTF8;
    AuthorizersAreExclusive(p, c);
    Kinds(p, c);
    if t.provider == GitHub && t.operation == RestRead { RestExactly(p, c, t.repository); }
    if t.provider == GitHub && t.operation == GitRead { GitExactly(p, c, t.repository); }
    OpenAIExactly(p, c);
  }

  lemma Kinds(p: Policy, c: Call)
    ensures AuthorizeRest(p, c).Some? ==>
              AuthorizeRest(p, c).value == Target(GitHub, AuthorizeRest(p, c).value.repository, RestRead, ApiGitHub)
    ensures AuthorizeGit(p, c).Some? ==>
              AuthorizeGit(p, c).value == Target(GitHub, AuthorizeGit(p, c).value.repository, GitRead, PlainGitHub)
    ensures AuthorizeOpenAI(p, c).Some? ==>
              AuthorizeOpenAI(p, c).value == Target(OpenAI, "", ResponsesText, ApiOpenAI)
  {
    hide ParseAddress, Segments, RepositoryPart, StrictBody, Discovery, Upload, ValidUTF8, ValidChildSegment;
  }

  // ---- how a capability is presented ---------------------------------------------------------------------

  lemma BytesFromAndTo(b: seq<Byte>)
    ensures ToBytes(FromBytes(b)) == b
  {
  }

  function GitSpelling(h: string): string
    requires Visible(h)
  {
    VisibleText(h);
    "Basic " + Base64.Encode(ToBytes("x-access-token:" + h), Base64.Std)
  }

  /** Git presents a capability in exactly one spelling. */
  lemma GitExtractedExactly(value: string, h: string)
    ensures ExtractGitBasic(value) == Some(h)
            <==> Base64.CanonicalHandle(h) && Visible(h) && value == GitSpelling(h)
  {
    hide Base64.Encode, Base64.Decode, Base64.CanonicalHandle, Count;
    if Base64.CanonicalHandle(h) {
      HandleText(h);
      GitHandleExtracted(h);
    }
    if ExtractGitBasic(value) == Some(h) {
      var decoded := Base64.Decode(value[6..], Base64.Std).value;
      BytesFromAndTo(decoded);
      var text := FromBytes(decoded);
      assert text == "x-access-token:" + h;
      assert value == "Basic " + value[6..];
    }
  }

  /** The schemes a client of that provider may use. */
  function Schemes(p: Provider): set<string> {
    match p
    case GitHub => {"Bearer ", "token "}
    case OpenAI => {"Bearer "}
    case OtherProvider(_) => {}
  }

  lemma SchemesDiffer(h: string)
    ensures !Base64.HasPrefix("token " + h, "Bearer ")
    ensures Base64.HasPrefix("token " + h, "token ") && ("token " + h)[6..] == h
    ensures Base64.HasPrefix("Bearer " + h, "Bearer ") && ("Bearer " + h)[7..] == h
  {
    var token, bearer := "token ", "Bearer ";
    assert (token + h)[0] == 't' && bearer[0] == 'B';
    assert (token + h)[..6] == token && (bearer + h)[..7] == bearer;
  }

  lemma SchemeSpaces(h: string)
    requires Visible(h)
    ensures Count("Bearer " + h, ' ') == 1 && Count("token " + h, ' ') == 1
  {
    hide Count;
    NoneCounted(h, ' ');
    CountConcat("Bearer ", h, ' ');
    CountConcat("token ", h, ' ');
    assert "Bearer " == "Bearer" + " " && "token " == "token" + " ";
    CountConcat("Bearer", " ", ' ');
    CountConcat("token", " ", ' ');
    NoneCounted("Bearer", ' ');
    NoneCounted("token", ' ');
    OneSpace();
  }

  /** Others present it in one of the schemes of their provider, as one header value. */
  lemma ExtractedExactly(t: Target, values: seq<string>, h: string)
    ensures ExtractCapability(t, values) == Some(h)
            <==> if t.operation.GitRead? then
                   Base64.CanonicalHandle(h) && Visible(h) && values == [GitSpelling(h)]
                 else
                   Base64.HasPrefix(h, "cap_") && Visible(h)
                   && exists scheme :: scheme in Schemes(t.provider) && values == [scheme + h]
  {
    hide ExtractGitBasic, Base64.CanonicalHandle, GitSpelling, Count;
    if |values| == 1 {
      assert values == [values[0]];
      if t.operation.GitRead? {
        GitExtractedExactly(values[0], h);
      } else {
        SchemesDiffer(h);
        if Visible(h) { SchemeSpaces(h); }
        if ExtractCapability(t, values) == Some(h) { SchemeFound(t, values[0], h); }
      }
    }
  }

  lemma SchemeFound(t: Target, value: string, h: string)
    requires !t.operation.GitRead? && ExtractCapability(t, [value]) == Some(h)
    ensures exists scheme :: scheme in Schemes(t.provider) && [value] == [scheme + h]
  {
    hide Count;
    if Base64.HasPrefix(value, "Bearer ") {
      assert value == "Bearer " + value[7..];
      assert "Bearer " in Schemes(t.provider);
    } else {
      assert value == "token " + value[6..];
      assert "token " in Schemes(t.provider);
    }
  }

  // ---- what goes out -------------------------------------------------------------------------------------

  /** The value sent upstream: the credential in the scheme of the operation. */
  function Upstreams(t: Target, credential: string): string
    requires Visible(credential)
  {
    if t.operation.GitRead? then GitSpelling(credential) else "Bearer " + credential
  }

  /** A credential of visible characters, within the configured length and 4 KiB. */
  predicate Fits(credential: string, max: int) {
    1 <= |credential| <= max && |credential| <= 4096
    && forall i :: 0 <= i < |credential| ==> '!' <= credential[i] <= '~'
  }

  lemma FitsExactly(credential: string, max: int)
    ensures ValidCredential(credential, max) <==> Fits(credential, max)
  {
  }

  /** An exchange sends the request as it came, once, to its own target and with the resolved credential, if and
      only if the capability is granted, the credential valid, and both fit the operation; and nothing else. */
  lemma SentExactly(hash: Hasher, rules: Rules, p: Policy, max: Bounds, sys: System, a: Asked)
    requires Kept(sys)
    ensures var (r', effects, result) := Exchange(hash, rules, p, max, sys.r, a);
      (|effects| > 2 <==>
         Evaluate(p, a.call).Some?
         && var t := Evaluate(p, a.call).value;
            Granted(hash, rules, sys, a, t) && a.credential.Some? && Fits(a.credential.value, max.credential)
            && (t.operation.RestRead? ==> a.call.contentType == "" && a.call.body == "")
            && (t.operation.GitRead? ==> !LooksLikeCapability(a.credential.value)))
      && (|effects| > 2 ==>
            var t := Evaluate(p, a.call).value;
            Visible(a.credential.value)
            && effects[2] == RoundTrip(Prepared(a.call, t, Upstreams(t, a.credential.value))))
      && (forall i :: 0 <= i < |effects| && i != 2 ==> !effects[i].RoundTrip?)
      && (|effects| > 3 ==> result.Some? && effects[3] == Delivered(result.value))
  {
    hide Kept, Evaluate, ExtractCapability, Consume, ReachesRoundTrip, ValidCredential, Fits, Accepted,
      LooksLikeCapability, Base64.CanonicalHandle, Base64.Encode;
    if a.credential.Some? { FitsExactly(a.credential.value, max.credential); }
    if Evaluate(p, a.call).Some? {
      var t := Evaluate(p, a.call).value;
      if ExtractCapability(t, a.values).Some? {
        GrantedExactly(hash, rules, sys, ExtractCapability(t, a.values).value, ScopeOf(a.subject, t), a.now);
      }
      if a.credential.Some? && ValidCredential(a.credential.value, max.credential) {
        CredentialVisible(a.credential.value, max.credential);
        PreparedGoesOutExactly(p, max.credential, a.call, a.credential.value);
      }
    }
  }

  // ---- which answers are passed on ---------------------------------------------------------------------------

  predicate JSONMedia(m: string) {
    var l := Lower(m);
    l == "application/json"
    || (|l| >= 17 && l[..12] == "application/" && l[|l| - 5..] == "+json")
  }

  /** An answer is passed on, status and body as they came, if and only if its status is a success, its body
      within the limit and empty where it must be, and its content the one the request calls for. */
  lemma AcceptedExactly(t: Target, verb: string, limit: int, u: Upstream, x: Response)
    ensures Accepted(t, verb, limit, u) == Some(x)
            <==> x.status == u.status && x.body == u.body && 200 <= u.status <= 299 && |u.body| <= limit
                 && (verb == "HEAD" || u.status == 204 ==> u.body == "")
                 && if t.operation.GitRead? then
                      u.status == 200 && u.body != "" && u.contentTypes == [x.contentType]
                      && x.contentType == if verb == "GET" then "application/x-git-upload-pack-advertisement"
                                          else "application/x-git-upload-pack-result"
                    else if u.body == "" then x.contentType == ""
                    else
                      x.contentType == "application/json" && ValidUTF8(u.body) && Json.Decode(u.body).Some?
                      && u.mediaType.Some? && JSONMedia(u.mediaType.value)
  {
    hide ValidUTF8, Json.Decode;
    if u.mediaType.Some? { MediaExactly(u.mediaType.value); }
    hide JSONMediaType, JSONMedia;
  }

  /** The two parts cannot share a character. */
  lemma SlashOnce(l: string)
    requires |l| >= 12 && l[..12] == "application/" && l[|l| - 5..] == "+json"
    ensures |l| >= 17
  {
    NoSlash(l);
    assert l[..12][11] == l[11];
  }

  lemma NoSlash(l: string)
    requires |l| >= 5 && l[|l| - 5..] == "+json"
    ensures forall i :: |l| - 5 <= i < |l| ==> l[i] != '/'
  {
    forall i | |l| - 5 <= i < |l| ensures l[i] != '/' { assert l[i] == l[|l| - 5..][i - (|l| - 5)]; }
  }

  lemma MediaExactly(m: string)
    ensures JSONMediaType(m) <==> JSONMedia(m)
  {
    hide Lower;
    var l := Lower(m);
    assert |"application/"| == 12 && |"+json"| == 5;
    if Base64.HasPrefix(l, "application/") && TrimSuffix(l, "+json") != l { SlashOnce(l); }
  }
}
