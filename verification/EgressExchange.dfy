/** One exchange through the broker: policy, capability, credential, re-evaluation, one round trip. */
module EgressExchange {
  import opened Text
  import opened Capability
  import opened EgressPolicy
  import Base64
  import Json

  const MAX_CREDENTIAL_BYTES := 4096

  // ---- bytes and text ------------------------------------------------------------------------------

  /** Text is one character per byte. */
  predicate Bytewise(s: string) { forall i :: 0 <= i < |s| ==> s[i] as int < 256 }

  function ToBytes(s: string): (b: seq<Byte>)
    requires Bytewise(s)
    ensures |b| == |s|
  {
    seq(|s|, i requires 0 <= i < |s| => s[i] as int)
  }

  function FromBytes(b: seq<Byte>): (s: string)
    ensures |s| == |b| && Bytewise(s)
  {
    seq(|b|, i requires 0 <= i < |b| => b[i] as char)
  }

  lemma BytesAndBack(s: string)
    requires Bytewise(s)
    ensures FromBytes(ToBytes(s)) == s
  {
  }

  function Count(s: string, c: char): nat {
    if s == "" then 0 else (if s[0] == c then 1 else 0) + Count(s[1..], c)
  }

  predicate Visible(s: string) { forall i :: 0 <= i < |s| ==> '!' <= s[i] <= '~' }

  // ---- the presented capability -----------------------------------------------------------------------

  function User(): string { "x-access-token:" }

  /** The handle in an Authorization value of the Git client. */
  function ExtractGitBasic(value: string): Option<string> {
    if !Base64.HasPrefix(value, "Basic ") || Count(value, ' ') != 1 then None
    else
      var encoded := value[6..];
      if encoded == "" || |encoded| > 8192 then None
      else
        var decoded :- Base64.Decode(encoded, Base64.Std);
        var text := FromBytes(decoded);
        if Base64.Encode(decoded, Base64.Std) != encoded || Count(text, ':') != 1
           || !Base64.HasPrefix(text, User()) then None
        else
          var handle := text[|User()|..];
          if Base64.CanonicalHandle(handle) then Some(handle) else None
  }

  function ExtractCapability(t: Target, values: seq<string>): Option<string> {
    if |values| != 1 then None
    else if t.operation.GitRead? then ExtractGitBasic(values[0])
    else if Count(values[0], ' ') != 1 then None
    else
      var value := values[0];
      var prefix := match t.provider
        case OpenAI => "Bearer "
        case GitHub =>
          if Base64.HasPrefix(value, "Bearer ") then "Bearer " else if Base64.HasPrefix(value, "token ") then "token "
            else ""
        case OtherProvider(_) => "";
      if prefix == "" || !Base64.HasPrefix(value, prefix) then None
      else
        var handle := value[|prefix|..];
        if handle == "" || !Base64.HasPrefix(handle, "cap_") || !Visible(handle) then None else Some(handle)
  }

  predicate ValidCredential(v: string, max: int) { 1 <= |v| <= max && |v| <= MAX_CREDENTIAL_BYTES && Visible(v) }

  /** The upstream value in the scheme of the operation. */
  function Authorization(t: Target, credential: string): string
    requires Visible(credential)
  {
    if t.operation.GitRead? then
      "Basic " + Base64.Encode(ToBytes(User() + credential), Base64.Std)
    else "Bearer " + credential
  }

  // ---- the forwarder's checks -----------------------------------------------------------------------------

  predicate LooksLikeCapability(v: string) { Base64.SlicedHandleCheck(v) }

  predicate ValidGitBasic(value: string) {
    Base64.HasPrefix(value, "Basic ") && Count(value, ' ') == 1
    && match Base64.Decode(value[6..], Base64.Std)
       case None => false
       case Some(decoded) =>
         Base64.Encode(decoded, Base64.Std) == value[6..] && Base64.HasPrefix(FromBytes(decoded), User())
         && var credential := FromBytes(decoded)[|User()|..];
            0 < |credential| <= MAX_CREDENTIAL_BYTES && !LooksLikeCapability(credential) && Visible(credential)
  }

  predicate ValidBearer(value: string) {
    Base64.HasPrefix(value, "Bearer ") && 0 < |value| - 7 <= MAX_CREDENTIAL_BYTES && Visible(value[7..])
  }

  predicate ValidUpstreamAuthorization(t: Target, value: string) {
    if t.operation.GitRead? then ValidGitBasic(value) else ValidBearer(value)
  }

  datatype Prepared = Prepared(call: Call, target: Target, authorization: string)

  /** Forward gets as far as the round trip. */
  predicate ReachesRoundTrip(p: Policy, r: Prepared) {
    Evaluate(p, r.call) == Some(r.target) && ValidUpstreamAuthorization(r.target, r.authorization)
    && !(r.target.operation.RestRead? && (r.call.contentType != "" || r.call.body != ""))
    && (r.target.operation.GitRead? ==> r.call.verb == "GET" || r.call.verb == "POST")
  }

  // ---- one exchange --------------------------------------------------------------------------------------

  datatype Response = Response(status: int, contentType: string, body: string)

  /** What a round trip brings back: every content type line, the media type the first of them names
      if it can be parsed, and the whole body. */
  datatype Upstream = Upstream(status: int, contentTypes: seq<string>, mediaType: Option<string>, body: string)

  function Advertisement(): string { "application/x-git-upload-pack-advertisement" }

  function UploadResult(): string { "application/x-git-upload-pack-result" }

  function GitResponseType(verb: string): string { if verb == "GET" then Advertisement() else UploadResult() }

  predicate JSONMediaType(m: string) {
    var media := Lower(m);
    media == "application/json" || (Base64.HasPrefix(media, "application/") && TrimSuffix(media, "+json") != media)
  }

  predicate JSONBody(u: Upstream) {
    ValidUTF8(u.body) && Json.Decode(u.body).Some? && u.mediaType.Some? && JSONMediaType(u.mediaType.value)
  }

  /** The checks on a response, and what of it is passed on. */
  function Accepted(t: Target, verb: string, limit: int, u: Upstream): Option<Response> {
    if u.status < 200 || u.status >= 300 || |u.body| > limit then None
    else if (verb == "HEAD" || u.status == 204) && u.body != "" then None
    else if t.operation.GitRead? then
      if u.status != 200 || u.body == "" || u.contentTypes != [GitResponseType(verb)] then None
      else Some(Response(u.status, GitResponseType(verb), u.body))
    else if u.body == "" then Some(Response(u.status, "", ""))
    else if JSONBody(u) then Some(Response(u.status, "application/json", u.body)) else None
  }

  /** What one exchange did outside itself, in order. */
  datatype Effect = Consumed(grant: Grant) | Resolved | RoundTrip(r: Prepared) | Delivered(response: Response)

  /** The greatest credential and response. */
  datatype Bounds = Bounds(credential: int, response: int)

  /** One call of Do: `credential` is what the resolver returns, `reply` what the round trip brings
      back, None if it or the reading of it fails. */
  datatype Asked = Asked(
    subject: Subject, call: Call, values: seq<string>, now: Reading, credential: Option<string>,
    reply: Option<Upstream>)

  predicate GrantMatches(g: Grant, s: Subject, t: Target) { g.scope == ScopeOf(s, t) }

  function ScopeOf(s: Subject, t: Target): Scope { Scope(s, t.provider, t.repository, t.operation, t.host) }

  function AcceptedReply(t: Target, verb: string, limit: int, reply: Option<Upstream>): Option<Response> {
    match reply case None => None case Some(u) => Accepted(t, verb, limit, u)
  }

  function Exchange(hash: Hasher, rules: Rules, p: Policy, max: Bounds, r: Registry, a: Asked)
    : (Registry, seq<Effect>, Option<Response>)
  {
    match Evaluate(p, a.call)
    case None => (r, [], None)
    case Some(t) =>
      match ExtractCapability(t, a.values)
      case None => (r, [], None)
      case Some(handle) =>
        var (r', grant) := Consume(hash, rules, r, handle, ScopeOf(a.subject, t), a.now);
        if grant.None? then (r', [], None)
        else if !GrantMatches(grant.value, a.subject, t) then (r', [Consumed(grant.value)], None)
        else if a.credential.None? || !ValidCredential(a.credential.value, max.credential) then
          (r', [Consumed(grant.value), Resolved], None)
        else
          var prepared := Prepared(a.call, t, Authorization(t, a.credential.value));
          var sofar := [Consumed(grant.value), Resolved];
          if !ReachesRoundTrip(p, prepared) then (r', sofar, None)
          else
            var response := AcceptedReply(t, a.call.verb, max.response, a.reply);
            if response.None? then (r', sofar + [RoundTrip(prepared)], None)
            else (r', sofar + [RoundTrip(prepared), Delivered(response.value)], response)
  }

  /** The request-scoped sink. */
  class CaptureSink {
    var delivered: bool
    var response: Response
    /** Every response it was ever offered. */
    ghost var offers: seq<Response>

    ghost predicate Valid()
      reads this
    {
      (delivered <==> offers != []) && (delivered ==> response == offers[0])
    }

    constructor ()
      ensures Valid() && offers == []
    {
      delivered, response, offers := false, Response(0, "", ""), [];
    }

    method Deliver(r: Response) returns (ok: bool)
      requires Valid()
      modifies this
      ensures Valid() && offers == old(offers) + [r] && ok == (old(offers) == [])
    {
      offers := offers + [r];
      if delivered { return false; }
      delivered, response, ok := true, r, true;
    }

    /** The first response ever offered, however many there were. */
    method Snapshot() returns (r: Option<Response>)
      requires Valid()
      ensures r == if offers == [] then None else Some(offers[0])
    {
      r := if delivered then Some(response) else None;
    }
  }

  class Broker {
    const policy: Policy
    const registry: CapabilityRegistry
    const max: Bounds

    constructor (policy: Policy, registry: CapabilityRegistry, max: Bounds)
      ensures this.policy == policy && this.registry == registry && this.max == max
    {
      this.policy, this.registry, this.max := policy, registry, max;
    }

    /** Forward: the effects from the round trip on, and whether it reports success. */
    method Forward(r: Prepared, sink: CaptureSink, reply: Option<Upstream>) returns (effects: seq<Effect>, ok: bool)
      requires sink.Valid()
      modifies sink
      ensures sink.Valid()
      ensures var response := AcceptedReply(r.target, r.call.verb, max.response, reply);
        if !ReachesRoundTrip(policy, r) then effects == [] && !ok && sink.offers == old(sink.offers)
        else if response.None? then effects == [RoundTrip(r)] && !ok && sink.offers == old(sink.offers)
        else
          sink.offers == old(sink.offers) + [response.value] && ok == (old(sink.offers) == [])
          && effects == [RoundTrip(r)] + (if ok then [Delivered(response.value)] else [])
    {
      hide Evaluate, ValidUpstreamAuthorization, Accepted;
      var target := Evaluate(policy, r.call);
      if target.None? || target.value != r.target || !ValidUpstreamAuthorization(target.value, r.authorization)
         || (target.value.operation.RestRead? && (r.call.contentType != "" || r.call.body != "")) { return [], false; }
      if target.value.operation.GitRead? && r.call.verb != "GET" && r.call.verb != "POST" { return [], false; }
      effects := [RoundTrip(r)];
      if reply.None? { return effects, false; }
      var response := CheckResponse(target.value, r.call.verb, reply.value);
      if response.None? { return effects, false; }
      ok := sink.Deliver(response.value);
      if ok { effects := effects + [Delivered(response.value)]; }
    }

    /** The checks of Forward after the round trip, in their order. */
    method CheckResponse(t: Target, verb: string, u: Upstream) returns (r: Option<Response>)
      ensures r == Accepted(t, verb, max.response, u)
    {
      hide ValidUTF8, Json.Decode, JSONMediaType;
      if u.status < 200 || u.status >= 300 || |u.body| > max.response { return None; }
      if (verb == "HEAD" || u.status == 204) && |u.body| != 0 { return None; }
      var contentType := "";
      if t.operation.GitRead? {
        var wanted := if verb == "GET" then Advertisement() else UploadResult();
        if u.status != 200 || |u.body| == 0 || |u.contentTypes| != 1 || u.contentTypes[0] != wanted { return None; }
        contentType := wanted;
      } else if |u.body| > 0 {
        if !ValidUTF8(u.body) || Json.Decode(u.body).None? { return None; }
        if u.mediaType.None? || !JSONMediaType(u.mediaType.value) { return None; }
        contentType := "application/json";
      }
      r := Some(Response(u.status, contentType, u.body));
    }

    method Do(a: Asked) returns (effects: seq<Effect>, result: Option<Response>)
      modifies registry`entries
      ensures (registry.Value(), effects, result)
           == Exchange(registry.hash, registry.rules, policy, max, old(registry.Value()), a)
    {
      hide Evaluate, ExtractCapability, Consume, ReachesRoundTrip, ValidCredential, Authorization, Accepted;
      var sink := new CaptureSink();
      var target := Evaluate(policy, a.call);
      if target.None? { return [], None; }
      var t := target.value;
      var handle := ExtractCapability(t, a.values);
      if handle.None? { return [], None; }
      var grant := registry.ConsumeHandle(handle.value, ScopeOf(a.subject, t), a.now);
      if grant.None? { return [], None; }
      effects := [Consumed(grant.value)];
      if !GrantMatches(grant.value, a.subject, t) { return effects, None; }
      effects := effects + [Resolved];
      assert effects == [Consumed(grant.value), Resolved];
      if a.credential.None? || !ValidCredential(a.credential.value, max.credential) { return effects, None; }
      CredentialVisible(a.credential.value, max.credential);
      var prepared := Prepared(a.call, t, Authorization(t, a.credential.value));
      var forwarded, ok := Forward(prepared, sink, a.reply);
      ghost var sofar := [Consumed(grant.value), Resolved];
      assert sofar + [] == sofar && [RoundTrip(prepared)] + [] == [RoundTrip(prepared)];
      ghost var response := AcceptedReply(t, a.call.verb, max.response, a.reply);
      if response.Some? {
        assert sofar + ([RoundTrip(prepared)] + [Delivered(response.value)])
               == sofar + [RoundTrip(prepared), Delivered(response.value)];
      }
      effects := effects + forwarded;
      if !ok { return effects, None; }
      result := sink.Snapshot();
    }
  }

  lemma CredentialVisible(v: string, max: int)
    requires ValidCredential(v, max)
    ensures Visible(v)
  {
  }

  // ---- what one exchange can do -----------------------------------------------------------------------------

  /** Each exchange makes at most one round trip, consumes at most once and before anything else, and
      returns only what one round trip delivered; denied before the consume, it does nothing. */
  lemma AtMostOneRoundTrip(hash: Hasher, rules: Rules, p: Policy, max: Bounds, r: Registry, a: Asked)
    ensures var (r', effects, result) := Exchange(hash, rules, p, max, r, a);
      |effects| <= 4
      && (forall i, j :: 0 <= i < j < |effects| ==>
            !(effects[i].RoundTrip? && effects[j].RoundTrip?) && !effects[j].Consumed?)
      && (result.Some? <==> |effects| == 4)
      && (result.Some? ==> effects[3] == Delivered(result.value) && effects[2].RoundTrip?)
      && (effects != [] ==> effects[0].Consumed?) && (|effects| > 1 ==> effects[1] == Resolved)
      && (|effects| > 2 ==> effects[2].RoundTrip? && effects[2].r.call == a.call)
  {
    hide Evaluate, ExtractCapability, Consume, ReachesRoundTrip, ValidCredential, Authorization, Accepted;
  }

  /** An exchange spends exactly one use if it consumed, and none otherwise: it is one step of the
      registry's own runs, or leaves it alone. */
  lemma SpendsAtMostOneUse(hash: Hasher, rules: Rules, p: Policy, max: Bounds, sys: System, a: Asked)
    requires Kept(sys)
    ensures var (r', effects, result) := Exchange(hash, rules, p, max, sys.r, a);
      exists after :: Kept(after) && after.r == r' && after.issued == sys.issued
        && if effects == [] then after.grants == sys.grants
           else
             |after.grants| == |sys.grants| + 1 && after.grants[..|sys.grants|] == sys.grants
             && effects[0] == Consumed(after.grants[|sys.grants|].grant)
  {
    hide Evaluate, ExtractCapability, ReachesRoundTrip, ValidCredential, Authorization, Accepted, Kept;
    var (r', effects, result) := Exchange(hash, rules, p, max, sys.r, a);
    if Evaluate(p, a.call).Some? && ExtractCapability(Evaluate(p, a.call).value, a.values).Some? {
      var t := Evaluate(p, a.call).value;
      var handle := ExtractCapability(t, a.values).value;
      var e := ConsumeOne(handle, ScopeOf(a.subject, t), a.now);
      var after := Step(hash, rules, sys, e);
      StepKeeps(hash, rules, sys, e);
      SerialsAreKeys(sys);
      ConsumeStep(hash, rules, sys, handle, ScopeOf(a.subject, t), a.now);
      assert after.r == r';
    } else {
      assert sys.r == r';
    }
  }

  lemma ConsumeStep(hash: Hasher, rules: Rules, sys: System, handle: string, scope: Scope, now: Reading)
    requires sys.serials.Keys == sys.r.entries.Keys
    ensures var after := Step(hash, rules, sys, ConsumeOne(handle, scope, now));
      var (r, grant) := Consume(hash, rules, sys.r, handle, scope, now);
      after.r == r && after.issued == sys.issued
      && if grant.None? then after.grants == sys.grants
         else |after.grants| == |sys.grants| + 1 && after.grants[..|sys.grants|] == sys.grants
              && after.grants[|sys.grants|].grant == grant.value
  {
    hide Base64.SlicedHandleCheck;
  }

  // ---- exactly when a prepared request goes out ---------------------------------------------------------------

  lemma {:induction false} NoneCounted(s: string, c: char)
    requires forall i :: 0 <= i < |s| ==> s[i] != c
    ensures Count(s, c) == 0
  {
    if s != "" { NoneCounted(s[1..], c); }
  }

  lemma {:induction false} CountConcat(a: string, b: string, c: char)
    ensures Count(a + b, c) == Count(a, c) + Count(b, c)
  {
    if a == "" { assert a + b == b; } else {
      CountConcat(a[1..], b, c);
      assert (a + b)[1..] == a[1..] + b;
    }
  }

  lemma BasicSpaces(encoded: string)
    requires forall i :: 0 <= i < |encoded| ==> Base64.PrintableUnspaced(encoded[i])
    ensures var value := "Basic " + encoded;
      Base64.HasPrefix(value, "Basic ") && Count(value, ' ') == 1 && value[6..] == encoded
  {
    var basic := "Basic ";
    CountConcat(basic, encoded, ' ');
    NoneCounted(encoded, ' ');
    CountConcat("Basic", " ", ' ');
    NoneCounted("Basic", ' ');
    assert basic == "Basic" + " ";
    assert Count(" ", ' ') == 1 by { assert " "[1..] == ""; }
  }

  /** The Git credential the transaction encodes is the one the forwarder decodes. */
  lemma GitBasicPasses(credential: string)
    requires 1 <= |credential| <= MAX_CREDENTIAL_BYTES && Visible(credential)
    ensures UserBytewise(credential)
    ensures ValidGitBasic("Basic " + Base64.Encode(ToBytes(User() + credential), Base64.Std))
            <==> !LooksLikeCapability(credential)
  {
    hide Base64.Encode, Base64.Decode, Count, LooksLikeCapability;
    var text := User() + credential;
    VisibleText(credential);
    var b := ToBytes(text);
    Base64.EncodedPrintable(b, Base64.Std);
    Base64.DecodeOfEncode(b, Base64.Std);
    BasicSpaces(Base64.Encode(b, Base64.Std));
    BytesAndBack(text);
    assert text[..|User()|] == User() && text[|User()|..] == credential;
  }

  predicate UserBytewise(credential: string) { Bytewise(User() + credential) }

  lemma VisibleText(credential: string)
    requires Visible(credential)
    ensures UserBytewise(credential)
  {
    var user := User();
    assert forall i :: 0 <= i < |user| ==> user[i] as int < 256;
  }

  lemma BearerPasses(credential: string)
    requires 1 <= |credential| <= MAX_CREDENTIAL_BYTES && Visible(credential)
    ensures ValidBearer("Bearer " + credential)
  {
    var bearer := "Bearer ";
    assert (bearer + credential)[..7] == bearer && (bearer + credential)[7..] == credential;
  }

  /** A request the transaction prepared is evaluated again to the same scope, and reaches the round
      trip exactly when a REST read has neither body nor content type and a Git credential is not
      shaped like a handle. */
  lemma PreparedGoesOutExactly(p: Policy, max: int, c: Call, credential: string)
    requires Evaluate(p, c).Some? && ValidCredential(credential, max)
    ensures var t := Evaluate(p, c).value;
      ReachesRoundTrip(p, Prepared(c, t, Authorization(t, credential)))
      <==> (t.operation.RestRead? ==> c.contentType == "" && c.body == "")
           && (t.operation.GitRead? ==> !LooksLikeCapability(credential))
  {
    hide Evaluate, ValidGitBasic, ValidBearer, LooksLikeCapability, Base64.Encode;
    AllowedTarget(p, c);
    if Evaluate(p, c).value.operation.GitRead? { GitBasicPasses(credential); } else { BearerPasses(credential); }
  }

  // ---- a client's spelling is understood ------------------------------------------------------------------------

  lemma HandleText(h: string)
    requires Base64.CanonicalHandle(h)
    ensures |h| == 47 && Visible(h) && Count(h, ' ') == 0 && Count(h, ':') == 0 && Base64.HasPrefix(h, "cap_")
  {
    hide Base64.Encode, Base64.Decode, Count;
    Base64.HandlesExactly(h);
    var raw: seq<Byte> :| |raw| == Base64.HANDLE_BYTES && h == Base64.HandleOf(raw);
    Base64.EncodedPrintable(raw, Base64.RawURL);
    Base64.PrefixTaken(raw);
    var cap := "cap_";
    forall i | 0 <= i < |h| ensures '!' <= h[i] <= '~' && h[i] != ':' {
      if i < 4 { assert h[i] == cap[i]; } else { assert h[i] == Base64.Encode(raw, Base64.RawURL)[i - 4]; }
    }
    NoneCounted(h, ' ');
    NoneCounted(h, ':');
  }

  /** Every canonical handle is extracted from the spelling of its operation. */
  lemma SpelledHandleIsExtracted(t: Target, h: string)
    requires Base64.CanonicalHandle(h) && !t.provider.OtherProvider?
    ensures Visible(h) && ExtractCapability(t, [Authorization(t, h)]) == Some(h)
  {
    hide Base64.Encode, Base64.Decode, Base64.CanonicalHandle, Count;
    HandleText(h);
    if t.operation.GitRead? {
      GitHandleExtracted(h);
    } else {
      var bearer := "Bearer ";
      CountConcat(bearer, h, ' ');
      assert Count(bearer, ' ') == 1 by {
        assert bearer == "Bearer" + " ";
        CountConcat("Bearer", " ", ' ');
        NoneCounted("Bearer", ' ');
        OneSpace();
      }
      assert (bearer + h)[..7] == bearer && (bearer + h)[7..] == h;
    }
  }

  lemma OneSpace()
    ensures Count(" ", ' ') == 1 && Count(":", ':') == 1
  {
    assert " "[1..] == "" && ":"[1..] == "";
  }

  lemma UserColons()
    ensures Count(User(), ':') == 1
  {
    hide Count;
    var name := "x-access-token";
    assert User() == name + ":";
    CountConcat(name, ":", ':');
    NoneCounted(name, ':');
    OneSpace();
  }

  lemma GitHandleExtracted(h: string)
    requires Base64.CanonicalHandle(h)
    ensures UserBytewise(h) && ExtractGitBasic("Basic " + Base64.Encode(ToBytes(User() + h), Base64.Std)) == Some(h)
  {
    hide Base64.Encode, Base64.Decode, Base64.CanonicalHandle, Count;
    HandleText(h);
    VisibleText(h);
    var text := User() + h;
    var b := ToBytes(text);
    Base64.EncodedPrintable(b, Base64.Std);
    Base64.DecodeOfEncode(b, Base64.Std);
    Base64.StdLength(b);
    BasicSpaces(Base64.Encode(b, Base64.Std));
    BytesAndBack(text);
    UserColons();
    CountConcat(User(), h, ':');
    assert text[..|User()|] == User() && text[|User()|..] == h;
  }

  // ---- exactly when an exchange returns a response -----------------------------------------------------------

  /** The scope of a request for which a live issuance is presented in its own time. */
  predicate Granted(hash: Hasher, rules: Rules, sys: System, a: Asked, t: Target)
    requires Kept(sys)
  {
    var handle := ExtractCapability(t, a.values);
    handle.Some? && Base64.CanonicalHandle(handle.value) && hash.sum(handle.value) in sys.serials
    && var e := sys.issued[sys.serials[hash.sum(handle.value)]].entry;
       e.scope == Scope(a.subject, t.provider, t.repository, t.operation, t.host)
         && e.policyVersion == rules.policyVersion
       && e.issuedElapsed <= a.now.elapsed < e.deadline && a.now.wall < e.expiresWall
  }

  /** From request to response: the policy allows it, a live capability of the same scope is presented,
      the credential and the request fit the operation, and the upstream's answer is acceptable. */
  lemma ReturnsExactly(hash: Hasher, rules: Rules, p: Policy, max: Bounds, sys: System, a: Asked)
    requires Kept(sys)
    ensures Exchange(hash, rules, p, max, sys.r, a).2
         == match Evaluate(p, a.call)
            case None => None
            case Some(t) =>
              if Granted(hash, rules, sys, a, t)
                 && a.credential.Some? && ValidCredential(a.credential.value, max.credential)
                 && (t.operation.RestRead? ==> a.call.contentType == "" && a.call.body == "")
                 && (t.operation.GitRead? ==> !LooksLikeCapability(a.credential.value))
              then AcceptedReply(t, a.call.verb, max.response, a.reply) else None
  {
    hide Kept, Evaluate, ExtractCapability, Consume, ReachesRoundTrip, ValidCredential, Authorization, Accepted,
      LooksLikeCapability, Base64.CanonicalHandle;
    if Evaluate(p, a.call).Some? {
      var t := Evaluate(p, a.call).value;
      if ExtractCapability(t, a.values).Some? {
        GrantedExactly(hash, rules, sys, ExtractCapability(t, a.values).value, ScopeOf(a.subject, t), a.now);
      }
      if a.credential.Some? && ValidCredential(a.credential.value, max.credential) {
        CredentialVisible(a.credential.value, max.credential);
        PreparedGoesOutExactly(p, max.credential, a.call, a.credential.value);
      }
    }
  }

  // ---- two requests that spend a use for nothing ---------------------------------------------------------------

  function OnePolicy(): Policy { Policy({"o/r"}, {"m"}, 100, 100) }

  function ReadWithBody(): Call { Call("GET", "https://" + ("api.github.com" + "/repos/o/r"), "", "x") }

  function Fetch(): Call {
    Call("GET", "https://" + ("github.com" + ("/o/r.git/info/refs" + ("?" + "service=git-upload-pack"))), "", "")
  }

  function HandleShaped(): string { Base64.HandleOf(seq(32, _ => 0)) }

  lemma OnePolicyIsValid()
    ensures ValidPolicy(OnePolicy())
  {
    assert Split("o/r", '/') == ["o", "r"] by {
      assert "o/r" == Join(["o", "r"], '/') by { assert ["o", "r"][1..] == ["r"]; }
      SplitExactly("o/r", '/', ["o", "r"]);
    }
  }

  lemma ReadIsAllowed()
    ensures Evaluate(OnePolicy(), ReadWithBody()) == Some(Target(GitHub, "o/r", RestRead, ApiGitHub))
  {
    hide AuthorizeRest, AuthorizeGit, AuthorizeOpenAI, ParseAddress, ValidPolicy;
    OnePolicyIsValid();
    var c := ReadWithBody();
    assert RestAddress(c.url, "o/r", []) by {
      hide Join;
      assert ["repos", "o/r"] + [] == ["repos", "o/r"];
      JoinTwo("repos", "o/r");
      assert "/" + ("repos" + "/" + "o/r") == "/repos/o/r";
      assert "/repos/o/r" + "" == "/repos/o/r";
      assert |c.url| < MAX_URL_BYTES;
    }
    RestExactly(OnePolicy(), c, "o/r");
  }

  lemma PolicyNames()
    ensures "o/r" in OnePolicy().repositories
  {
  }

  lemma FetchIsDiscovery()
    ensures DiscoveryCall(Fetch(), "o/r")
  {
    assert "/" + "o/r" + ".git/info/refs" == "/o/r.git/info/refs";
    assert |Fetch().url| < MAX_URL_BYTES;
  }

  lemma FetchIsAllowed()
    ensures Evaluate(OnePolicy(), Fetch()) == Some(Target(GitHub, "o/r", GitRead, PlainGitHub))
  {
    hide AuthorizeRest, AuthorizeGit, AuthorizeOpenAI, ParseAddress, ValidPolicy, DiscoveryCall, UploadCall, Fetch,
      OnePolicy;
    OnePolicyIsValid();
    var c := Fetch();
    FetchIsDiscovery();
    assert "o/r" in OnePolicy().repositories by { PolicyNames(); }
    GitExactly(OnePolicy(), c, "o/r");
    AuthorizersAreExclusive(OnePolicy(), c);
  }

  /** A REST read with a body is allowed, whatever the credential, and never goes out. */
  lemma ReadWithBodyIsWasted(credential: string)
    requires ValidCredential(credential, MAX_CREDENTIAL_BYTES)
    ensures ValidPolicy(OnePolicy()) && Evaluate(OnePolicy(), ReadWithBody()).Some?
    ensures var t := Evaluate(OnePolicy(), ReadWithBody()).value;
      !ReachesRoundTrip(OnePolicy(), Prepared(ReadWithBody(), t, Authorization(t, credential)))
  {
    hide Evaluate, ReachesRoundTrip, ValidPolicy, Authorization;
    OnePolicyIsValid();
    ReadIsAllowed();
    PreparedGoesOutExactly(OnePolicy(), MAX_CREDENTIAL_BYTES, ReadWithBody(), credential);
  }

  /** So is a fetch with a credential that is valid but shaped like a handle. */
  lemma HandleShapedCredentialIsWasted()
    ensures ValidPolicy(OnePolicy()) && Evaluate(OnePolicy(), Fetch()).Some?
    ensures ValidCredential(HandleShaped(), MAX_CREDENTIAL_BYTES)
    ensures var t := Evaluate(OnePolicy(), Fetch()).value;
      !ReachesRoundTrip(OnePolicy(), Prepared(Fetch(), t, Authorization(t, HandleShaped())))
  {
    hide Evaluate, ReachesRoundTrip, ValidPolicy, Authorization, Base64.CanonicalHandle, Base64.HandleOf, OnePolicy,
      Fetch, Base64.HasPrefix, Base64.SlicedHandleCheck;
    OnePolicyIsValid();
    FetchIsAllowed();
    Base64.HandlesExactly(HandleShaped());
    HandleText(HandleShaped());
    Base64.ChecksAgree(HandleShaped());
    PreparedGoesOutExactly(OnePolicy(), MAX_CREDENTIAL_BYTES, Fetch(), HandleShaped());
  }
}
