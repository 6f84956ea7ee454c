/** The bytes of a manifest spelled out, what its digest is taken of, and which ref updates are coherent. */
module ManifestText {
  import opened Text
  import opened CivilTime
  import opened Json
  import opened Manifest

  // ---- printed objects and arrays -----------------------------------------------------------------------

  function Quoted(text: string): string { "\"" + text + "\"" }

  function Member(name: string, value: string): string { Quoted(name) + (":" + value) }

  function Braced(members: seq<string>): string { "{" + Join(members, ',') + "}" }

  function Bracketed(values: seq<string>): string { "[" + Join(values, ',') + "]" }

  function PrintedPair(p: Pair): string { "\"" + Escape(p.0) + "\":" + Encode(p.1) }

  function PrintedPairs(ps: seq<Pair>): seq<string> {
    seq(|ps|, i requires 0 <= i < |ps| => PrintedPair(ps[i]))
  }

  function PrintedValues(vs: seq<Json>): seq<string> { seq(|vs|, i requires 0 <= i < |vs| => Encode(vs[i])) }

  lemma JoinStep(first: string, others: seq<string>)
    ensures Join([first] + others, ',') == first + (if others == [] then "" else "," + Join(others, ','))
  {
    assert ([first] + others)[1..] == others;
  }

  lemma {:induction false} PrintedFields(ps: seq<Pair>)
    ensures EncodeFields(FromPairs(ps)) == Join(PrintedPairs(ps), ',')
  {
    hide Escape, Join;
    if ps == [] {
      NothingJoined();
    } else {
      PrintedFields(ps[1..]);
      assert PrintedPairs(ps) == [PrintedPair(ps[0])] + PrintedPairs(ps[1..]);
      JoinStep(PrintedPair(ps[0]), PrintedPairs(ps[1..]));
    }
  }

  lemma NothingJoined()
    ensures Join([], ',') == ""
  {
  }

  lemma {:induction false} PrintedItems(vs: seq<Json>)
    ensures EncodeItems(FromSeq(vs)) == Join(PrintedValues(vs), ',')
  {
    hide Join;
    if vs == [] {
      NothingJoined();
    } else {
      PrintedItems(vs[1..]);
      assert PrintedValues(vs) == [Encode(vs[0])] + PrintedValues(vs[1..]);
      JoinStep(Encode(vs[0]), PrintedValues(vs[1..]));
    }
  }

  lemma PlainString(text: string)
    requires Plain(text)
    ensures Encode(Str(text)) == Quoted(text)
  {
    EscapePlain(text);
  }

  lemma PlainPair(name: string, value: Json)
    requires Plain(name)
    ensures PrintedPair((name, value)) == Member(name, Encode(value))
  {
    hide Encode;
    EscapePlain(name);
  }

  // ---- the text of a manifest -----------------------------------------------------------------------------

  function TrueOrFalse(b: bool): string { if b then "true" else "false" }

  /** One ref update. */
  function UpdateText(u: RefUpdate): string {
    Braced([Member("ref", Quoted(u.ref)), Member("expected_old_sha", Quoted(u.expectedOldSHA)),
            Member("new_sha", Quoted(u.newSHA)), Member("force", TrueOrFalse(u.force)),
            Member("delete", TrueOrFalse(u.delete))])
  }

  function UpdateTexts(refs: seq<RefUpdate>): seq<string> {
    seq(|refs|, i requires 0 <= i < |refs| => UpdateText(refs[i]))
  }

  /** The members that are digested, in their order. */
  function PayloadMembers(p: Proposal): seq<string>
    requires FourDigitYear(p.createdAt.seconds) && FourDigitYear(p.expiresAt.seconds)
  {
    [Member("format_version", "1"), Member("request_id", Quoted(p.requestID)), Member("agent_id", Quoted(p.agentID)),
     Member("workspace_id", Quoted(p.workspaceID)), Member("repository", Quoted(p.repository)),
     Member("remote", Quoted(p.remote)), Member("ref_updates", Bracketed(UpdateTexts(p.refUpdates))),
     Member("policy_version", Quoted(p.policyVersion)), Member("revocation_epoch", Decimal(p.revocationEpoch)),
     Member("created_at", Quoted(FormatTime(p.createdAt.seconds))),
     Member("expires_at", Quoted(FormatTime(p.expiresAt.seconds)))]
  }

  lemma PlainNames()
    ensures forall i :: 0 <= i < 5 ==> Plain(RefNames()[i])
    ensures forall i :: 0 <= i < 12 ==> Plain(Names()[i])
  {
    hide Plain;
    PlainUpdateNames();
    PlainFirstNames();
    PlainMoreNames();
    PlainLastNames();
  }

  lemma PlainUpdateNames()
    ensures Plain("ref") && Plain("expected_old_sha") && Plain("new_sha") && Plain("force") && Plain("delete")
  {
  }

  lemma PlainFirstNames()
    ensures Plain("format_version") && Plain("request_id") && Plain("agent_id") && Plain("workspace_id")
  {
  }

  lemma PlainMoreNames()
    ensures Plain("repository") && Plain("remote") && Plain("ref_updates") && Plain("policy_version")
  {
  }

  lemma PlainLastNames()
    ensures Plain("revocation_epoch") && Plain("created_at") && Plain("expires_at") && Plain("request_digest")
  {
  }

  lemma UpdatePrinted(u: RefUpdate)
    requires ValidBranchRef(u.ref) && ValidObjectID(u.expectedOldSHA) && ValidObjectID(u.newSHA)
    ensures Encode(RefValue(u)) == UpdateText(u)
  {
    hide Plain, EncodeFields, Escape, Join, ValidBranchRef, PrintedPair, Member, Quoted;
    PlainNames();
    PlainRef(u.ref);
    PlainIDs(u);
    PlainString(u.ref);
    PlainString(u.expectedOldSHA);
    PlainString(u.newSHA);
    var ps := RefPairs(u);
    PrintedFields(ps);
    forall i | 0 <= i < 5 ensures PrintedPair(ps[i]) == Member(RefNames()[i], Encode(ps[i].1)) {
      PlainPair(RefNames()[i], ps[i].1);
    }
    assert PrintedPairs(ps)
        == [Member("ref", Quoted(u.ref)), Member("expected_old_sha", Quoted(u.expectedOldSHA)),
            Member("new_sha", Quoted(u.newSHA)), Member("force", TrueOrFalse(u.force)),
            Member("delete", TrueOrFalse(u.delete))];
  }

  lemma PlainIDs(u: RefUpdate)
    requires ValidObjectID(u.expectedOldSHA) && ValidObjectID(u.newSHA)
    ensures Plain(u.expectedOldSHA) && Plain(u.newSHA)
  {
  }

  lemma UpdatesPrinted(refs: seq<RefUpdate>)
    requires GoodRefs(refs)
    ensures Encode(Arr(FromSeq(RefValues(refs)))) == Bracketed(UpdateTexts(refs))
  {
    hide Encode, RefValue, UpdateText, ValidBranchRef, ValidObjectID, InvalidTransitionField, Join;
    forall i | 0 <= i < |refs| ensures Encode(RefValue(refs[i])) == UpdateText(refs[i]) { UpdatePrinted(refs[i]); }
    assert PrintedValues(RefValues(refs)) == UpdateTexts(refs);
    PrintedItems(RefValues(refs));
    ArrayPrinted(FromSeq(RefValues(refs)));
  }

  lemma ArrayPrinted(items: Items)
    ensures Encode(Arr(items)) == "[" + EncodeItems(items) + "]"
  {
  }

  lemma ObjectPrinted(fields: Fields)
    ensures Encode(Obj(fields)) == "{" + EncodeFields(fields) + "}"
  {
  }

  lemma NumberPrinted(lexeme: string)
    ensures Encode(Num(lexeme)) == lexeme
  {
  }

  lemma ValueList(p: Proposal)
    requires ValidProposal(p)
    ensures var vs := PayloadValues(p);
      vs[0] == Num("1") && vs[1] == Str(p.requestID) && vs[2] == Str(p.agentID) && vs[3] == Str(p.workspaceID)
      && vs[4] == Str(p.repository) && vs[5] == Str(p.remote) && vs[6] == Arr(FromSeq(RefValues(p.refUpdates)))
      && vs[7] == Str(p.policyVersion) && vs[8] == Num(Decimal(p.revocationEpoch))
      && vs[9] == Str(FormatTime(p.createdAt.seconds)) && vs[10] == Str(FormatTime(p.expiresAt.seconds))
  {
    hide FormatTime, RefValues, Decimal, GoodScalars, GoodRefs, FourDigitYear, FromSeq, ValidTime, ValidProposal;
  }

  /** The printed values of the payload, one by one. */
  lemma ValuesPrinted(p: Proposal)
    requires ValidProposal(p)
    ensures var vs := PayloadValues(p);
      Encode(vs[0]) == "1" && Encode(vs[1]) == Quoted(p.requestID) && Encode(vs[2]) == Quoted(p.agentID)
      && Encode(vs[3]) == Quoted(p.workspaceID) && Encode(vs[4]) == Quoted(p.repository)
      && Encode(vs[5]) == Quoted(p.remote) && Encode(vs[6]) == Bracketed(UpdateTexts(p.refUpdates))
      && Encode(vs[7]) == Quoted(p.policyVersion) && Encode(vs[8]) == Decimal(p.revocationEpoch)
      && Encode(vs[9]) == Quoted(FormatTime(p.createdAt.seconds))
      && Encode(vs[10]) == Quoted(FormatTime(p.expiresAt.seconds))
  {
    PlainScalars(p);
    ValueList(p);
    ProposalTimes(p);
    hide Plain, Encode, PayloadValues, GoodScalars, GoodRefs, FormatTime, FourDigitYear, Quoted, Bracketed, Decimal,
      ValidTime;
    NumberPrinted("1");
    NumberPrinted(Decimal(p.revocationEpoch));
    PlainString(p.requestID);
    PlainString(p.agentID);
    PlainString(p.workspaceID);
    PlainString(p.repository);
    PlainString(p.remote);
    PlainString(p.policyVersion);
    PlainString(FormatTime(p.createdAt.seconds));
    PlainString(FormatTime(p.expiresAt.seconds));
    UpdatesPrinted(p.refUpdates);
  }

  lemma PlainToken(v: string)
    requires ValidToken(v, 128)
    ensures Plain(v)
  {
  }

  lemma PlainInstant(t: int)
    requires FourDigitYear(t)
    ensures Plain(FormatTime(t))
  {
    hide FourDigitYear, FormatTime, Padded;
    Slices(t);
    var s := FormatTime(t);
    forall i | 0 <= i < |s| ensures ' ' <= s[i] && s[i] !in {'"', '\\', '<', '>', '&'} { DigitsAround(s, i); }
  }

  lemma DigitsAround(s: string, i: nat)
    requires TimeShape(s) && i < |s|
    ensures IsDigit(s[i]) || s[i] in {'-', ':', 'T', 'Z'}
  {
    if i < 4 { assert s[0..4][i] == s[i]; }
    if 5 <= i < 7 { assert s[5..7][i - 5] == s[i]; }
    if 8 <= i < 10 { assert s[8..10][i - 8] == s[i]; }
    if 11 <= i < 13 { assert s[11..13][i - 11] == s[i]; }
    if 14 <= i < 16 { assert s[14..16][i - 14] == s[i]; }
    if 17 <= i < 19 { assert s[17..19][i - 17] == s[i]; }
  }

  lemma PlainScalars(p: Proposal)
    requires ValidProposal(p)
    ensures Plain(p.requestID) && Plain(p.agentID) && Plain(p.workspaceID) && Plain(p.policyVersion)
      && Plain(p.repository) && Plain(p.remote)
      && Plain(FormatTime(p.createdAt.seconds)) && Plain(FormatTime(p.expiresAt.seconds))
  {
    hide Plain, GoodRefs, ValidToken, ValidRepository, FourDigitYear, FormatTime;
    PlainToken(p.requestID);
    PlainToken(p.agentID);
    PlainToken(p.workspaceID);
    PlainToken(p.policyVersion);
    PlainRepository(p.repository);
    PlainRemote(p);
    PlainInstant(p.createdAt.seconds);
    PlainInstant(p.expiresAt.seconds);
  }

  /** The first n names and printed values of a manifest. */
  lemma MembersPrinted(ps: seq<Pair>, n: nat)
    requires n <= |ps| && n <= 12 && forall i :: 0 <= i < n ==> ps[i].0 == Names()[i]
    ensures forall i :: 0 <= i < n ==> PrintedPairs(ps)[i] == Member(Names()[i], Encode(ps[i].1))
  {
    hide Plain, Encode, Escape, PrintedPair, Member, Names;
    PlainNames();
    forall i | 0 <= i < n ensures PrintedPair(ps[i]) == Member(Names()[i], Encode(ps[i].1)) {
      PlainPair(Names()[i], ps[i].1);
      assert ps[i] == (Names()[i], ps[i].1);
    }
  }

  lemma NamesSpelled()
    ensures Names() == ["format_version", "request_id", "agent_id", "workspace_id", "repository", "remote",
                        "ref_updates", "policy_version", "revocation_epoch", "created_at", "expires_at",
                        "request_digest"]
  {
  }

  lemma PairsPrinted(p: Proposal, vs: seq<Json>, ps: seq<Pair>)
    requires ValidProposal(p) && |ps| >= 11 && |vs| == |ps| && vs[..11] == PayloadValues(p)
    requires |ps| <= 12 && forall i :: 0 <= i < |ps| ==> ps[i] == (Names()[i], vs[i])
    ensures PrintedPairs(ps)[..11] == PayloadMembers(p)
    ensures |ps| == 12 ==> PrintedPairs(ps)[11] == Member("request_digest", Encode(vs[11]))
  {
    hide Encode, PayloadValues, ValidProposal, FormatTime, PrintedPair, Member, Quoted, Bracketed, Decimal;
    ProposalTimes(p);
    ValuesPrinted(p);
    MembersPrinted(ps, |ps|);
    NamesSpelled();
    forall i | 0 <= i < 11 ensures ps[i].1 == PayloadValues(p)[i] { assert vs[..11][i] == vs[i]; }
  }

  lemma ProposalTimes(p: Proposal)
    requires ValidProposal(p)
    ensures FourDigitYear(p.createdAt.seconds) && FourDigitYear(p.expiresAt.seconds)
  {
  }

  /** The digested text of a valid proposal: these eleven members, in this order and spelling. */
  lemma PayloadSpelled(p: Proposal)
    requires ValidProposal(p)
    ensures PayloadEncoding(p) == Braced(PayloadMembers(p))
  {
    hide Encode, EncodeFields, PayloadValues, ValidProposal, FormatTime, PrintedPair, Member, Join, FromPairs,
      PayloadMembers;
    var ps := PayloadPairs(p);
    PrintedFields(ps);
    ObjectPrinted(FromPairs(ps));
    assert PayloadValues(p)[..11] == PayloadValues(p);
    PairsPrinted(p, PayloadValues(p), ps);
    assert PrintedPairs(ps)[..11] == PrintedPairs(ps);
  }

  /** The public text is the digested one with its digest as a twelfth member. */
  lemma PublicSpelled(p: Proposal, digest: string)
    requires ValidProposal(p) && Plain(digest)
    ensures PublicEncoding(p, digest) == Braced(PayloadMembers(p) + [Member("request_digest", Quoted(digest))])
  {
    hide Encode, EncodeFields, PayloadValues, ValidProposal, FormatTime, PrintedPair, Member, Join, FromPairs, Plain,
      PayloadMembers;
    var ps, vs := PublicPairs(p, digest), PayloadValues(p) + [Str(digest)];
    PrintedFields(ps);
    ObjectPrinted(FromPairs(ps));
    assert vs[..11] == PayloadValues(p);
    PairsPrinted(p, vs, ps);
    PlainString(digest);
    assert PrintedPairs(ps) == PrintedPairs(ps)[..11] + [PrintedPairs(ps)[11]];
  }

  // ---- the digest -------------------------------------------------------------------------------------------

  function HexValue(c: char): int { if c <= '9' then c as int - '0' as int else c as int - 'a' as int + 10 }

  /** The byte two hexadecimal digits spell. */
  predicate Spells(high: char, low: char, b: Byte) {
    IsLowerHex(high) && IsLowerHex(low) && 16 * HexValue(high) + HexValue(low) == b
  }

  /** "sha256:" and two hexadecimal digits for each byte of a sum. */
  predicate DigestOf(digest: string, sum: Bytes32) {
    |digest| == 71 && digest[..7] == "sha256:"
    && forall i :: 0 <= i < 32 ==> Spells(digest[7 + 2 * i], digest[8 + 2 * i], sum[i])
  }

  lemma ByteSpelled(b: Byte)
    ensures Spells(HexDigit(b / 16), HexDigit(b % 16), b)
  {
  }

  lemma LabelledDigest(hash: Hasher, x: string)
    ensures DigestOf(Labelled(HashOf(hash, x)), hash.sum(x))
  {
    hide HexDigit, Spells;
    var sum, h, d := hash.sum(x), HashOf(hash, x), Labelled(HashOf(hash, x));
    forall i | 0 <= i < 32 ensures Spells(d[7 + 2 * i], d[8 + 2 * i], sum[i]) {
      assert d[7 + 2 * i] == h[2 * i] && d[8 + 2 * i] == h[2 * i + 1];
      assert (2 * i) / 2 == i && (2 * i + 1) / 2 == i && (2 * i) % 2 == 0 && (2 * i + 1) % 2 == 1;
      ByteSpelled(sum[i]);
    }
    assert d[..7] == "sha256:";
  }

  /** What Build returns for a valid proposal: the proposal itself, the digest of its spelled-out payload under the
      manifest's own domain, and the text that carries both. */
  lemma BuiltExactly(hash: Hasher, p: Proposal)
    requires ValidProposal(p)
    ensures Build(hash, p).Ok?
    ensures var m := Build(hash, p).value;
      m.proposal == p
      && DigestOf(m.requestDigest,
                  hash.sum("dev-agent-harness/push-approval-manifest/v1\0" + Braced(PayloadMembers(p))))
      && m.encoding == Braced(PayloadMembers(p) + [Member("request_digest", Quoted(m.requestDigest))])
  {
    hide PayloadEncoding, PublicEncoding, ValidProposal, PayloadMembers, Braced, DigestOf, Labelled, HashOf;
    BuildNeverFails(hash, p);
    PayloadSpelled(p);
    LabelledDigest(hash, DIGEST_DOMAIN + PayloadEncoding(p));
    PlainDigests(RequestDigest(hash, p));
    PublicSpelled(p, RequestDigest(hash, p));
  }

  lemma PlainDigests(d: string)
    requires IsDigest(d)
    ensures Plain(d)
  {
    forall i | 0 <= i < |d| ensures ' ' <= d[i] && d[i] !in {'"', '\\', '<', '>', '&'} {
      if i < 7 { assert d[i] == d[..7][i]; } else { assert d[i] == d[7..][i - 7]; }
    }
  }

  // ---- ref updates --------------------------------------------------------------------------------------------

  predicate NoObject(id: string) { |id| == 40 && forall i :: 0 <= i < 40 ==> id[i] == '0' }

  /** A creation, a deletion, or a move between two different objects; only a move may be forced. */
  predicate Coherent(u: RefUpdate) {
    var creates, deletes := NoObject(u.expectedOldSHA), NoObject(u.newSHA);
    !(creates && deletes) && (u.delete <==> deletes) && (creates || deletes ==> !u.force)
    && (!creates && !deletes ==> u.expectedOldSHA != u.newSHA)
  }

  lemma TransitionExactly(u: RefUpdate)
    ensures InvalidTransitionField(u) == NoField <==> Coherent(u)
  {
    ZeroID(u.expectedOldSHA);
    ZeroID(u.newSHA);
    hide NoObject;
  }

  lemma ZeroID(id: string)
    ensures id == ZERO_OBJECT_ID <==> NoObject(id)
  {
    var zero := ZERO_OBJECT_ID;
    assert |zero| == 40 && forall i :: 0 <= i < 40 ==> zero[i] == '0';
  }
}
