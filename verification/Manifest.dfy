/** The canonical push-approval manifest: what `Build` emits and what `Parse` accepts. */
module Manifest {
  import opened Text
  import opened CivilTime
  import opened Json
  import Scanner

  const MAX_ENCODING_BYTES := 32 * 1024
  const MAX_REF_UPDATES := 32
  const DIGEST_DOMAIN := "dev-agent-harness/push-approval-manifest/v1\0"
  const ZERO_OBJECT_ID := "0000000000000000000000000000000000000000"

  /** SHA-256; nothing is known of it but the size of its result. */
  datatype Hasher = Hasher(sum: string -> Bytes32)

  datatype Class = Invalid | Parsing | DuplicateKey | Digest | NonCanonical | Internal

  /** A location in a proposal or its encoding. */
  datatype Field =
    | NoField | Encoding | FormatVersion | RequestID | AgentID | WorkspaceID | Repository | Remote | RefUpdates
    | Ref | ExpectedOldSHA | NewSHA | Force | Delete | PolicyVersion | RevocationEpoch | CreatedAt | ExpiresAt
    | DigestField

  /** `index` is the failing ref update, or -1. */
  datatype ManifestError = ManifestError(class_: Class, field: Field, index: int)

  datatype RefUpdate = RefUpdate(ref: string, expectedOldSHA: string, newSHA: string, force: bool, delete: bool)

  /** A time.Time: an instant with nanoseconds, and whether its location is UTC. */
  datatype Stamp = Stamp(seconds: int, nanos: nat, utc: bool)

  datatype Proposal = Proposal(
    requestID: string, agentID: string, workspaceID: string, repository: string, remote: string,
    refUpdates: seq<RefUpdate>, policyVersion: string, revocationEpoch: nat, createdAt: Stamp, expiresAt: Stamp)

  datatype Manifest = Manifest(proposal: Proposal, requestDigest: string, encoding: string)

  // ---- validation -------------------------------------------------------------------

  predicate ValidToken(v: string, limit: nat) {
    0 < |v| <= limit
    && (forall i :: 0 <= i < |v| ==> AlphaNumeric(v[i]) || v[i] in {'.', '_', ':', '@', '/', '-'})
    && AlphaNumeric(v[0]) && AlphaNumeric(v[|v| - 1])
  }

  predicate HasSuffix(s: string, suffix: string) {
    |s| >= |suffix| && s[|s| - |suffix|..] == suffix
  }

  /** Narrower than what the other packages accept: no trailing dot. */
  predicate ManifestPart(part: string) {
    part != [] && LowerNumeric(part[0]) && part[|part| - 1] != '.'
    && forall i :: 0 <= i < |part| ==> LowerNumeric(part[i]) || part[i] in {'-', '_', '.'}
  }

  predicate ValidRepository(r: string) {
    0 < |r| <= 256
    && var parts := Split(r, '/');
       |parts| == 2 && ManifestPart(parts[0]) && ManifestPart(parts[1]) && !HasSuffix(parts[1], ".git")
  }

  predicate ValidSegment(s: string) {
    s != [] && s[0] != '.' && s[|s| - 1] != '.' && !HasSuffix(s, ".lock")
    && forall i :: 0 <= i < |s| ==> AlphaNumeric(s[i]) || s[i] in {'-', '_', '.'}
  }

  predicate ValidBranchRef(ref: string) {
    |ref| <= 256 && "refs/heads/" <= ref
    && var suffix := ref[11..];
       suffix != [] && (forall i :: 0 <= i < |suffix| - 1 ==> !(suffix[i] == '.' && suffix[i + 1] == '.'))
       && forall s :: s in Split(suffix, '/') ==> ValidSegment(s)
  }

  predicate ValidObjectID(id: string) { |id| == 40 && AllLowerHex(id) }

  /** The field that makes an update's old and new object, force and delete disagree; NoField if none. */
  function InvalidTransitionField(u: RefUpdate): Field {
    var oldIsZero, newIsZero := u.expectedOldSHA == ZERO_OBJECT_ID, u.newSHA == ZERO_OBJECT_ID;
    if oldIsZero && !newIsZero then
      if u.force then Force else if u.delete then Delete else NoField
    else if !oldIsZero && newIsZero then
      if u.force then Force else if !u.delete then Delete else NoField
    else if !oldIsZero && !newIsZero then
      if u.expectedOldSHA == u.newSHA then NewSHA else if u.delete then Delete else NoField
    else NewSHA
  }

  predicate ValidTime(t: Stamp) {
    !(t.seconds == ZERO_TIME && t.nanos == 0) && t.utc && t.nanos == 0 && FourDigitYear(t.seconds)
  }

  /** What is wrong with update i, given the refs of the updates before it. */
  function RefFault(refs: seq<RefUpdate>, i: nat): Field
    requires i < |refs|
  {
    var u := refs[i];
    if !ValidBranchRef(u.ref) then Ref
    else if exists j :: 0 <= j < i && refs[j].ref == u.ref then Ref
    else if !ValidObjectID(u.expectedOldSHA) then ExpectedOldSHA
    else if !ValidObjectID(u.newSHA) then NewSHA
    else InvalidTransitionField(u)
  }

  predicate GoodRefs(refs: seq<RefUpdate>) {
    1 <= |refs| <= MAX_REF_UPDATES
    && (forall i :: 0 <= i < |refs| ==>
          ValidBranchRef(refs[i].ref) && ValidObjectID(refs[i].expectedOldSHA) && ValidObjectID(refs[i].newSHA)
          && InvalidTransitionField(refs[i]) == NoField)
    && forall i, j :: 0 <= i < j < |refs| ==> refs[i].ref != refs[j].ref
  }

  function ExpectedRemote(repository: string): string { "https://github.com/" + repository + ".git" }

  predicate ValidProposal(p: Proposal) {
    GoodScalars(p)
    && GoodRefs(p.refUpdates)
    && ValidTime(p.createdAt) && ValidTime(p.expiresAt) && p.createdAt.seconds < p.expiresAt.seconds
    && p.revocationEpoch < 0x1_0000_0000_0000_0000
  }

  predicate GoodScalars(p: Proposal) {
    ValidToken(p.requestID, 128) && ValidToken(p.agentID, 128) && ValidToken(p.workspaceID, 128)
      && ValidToken(p.policyVersion, 128)
    && ValidRepository(p.repository) && |p.remote| <= 512 && p.remote == ExpectedRemote(p.repository)
  }

  /** The first update at or after i with a fault; |refs| if there is none. */
  function FirstBadRef(refs: seq<RefUpdate>, i: nat): (k: nat)
    requires i <= |refs|
    ensures i <= k <= |refs| && (k < |refs| ==> RefFault(refs, k) != NoField)
    ensures forall j :: i <= j < k ==> RefFault(refs, j) == NoField
    decreases |refs| - i
  {
    if i == |refs| || RefFault(refs, i) != NoField then i else FirstBadRef(refs, i + 1)
  }

  function Fault(field: Field, index: int): Option<ManifestError> { Some(ManifestError(Invalid, field, index)) }

  /** The first fault of a proposal in the order the checks run. */
  function ProposalFault(p: Proposal): Option<ManifestError> {
    if !ValidToken(p.requestID, 128) then Fault(RequestID, -1)
    else if !ValidToken(p.agentID, 128) then Fault(AgentID, -1)
    else if !ValidToken(p.workspaceID, 128) then Fault(WorkspaceID, -1)
    else if !ValidToken(p.policyVersion, 128) then Fault(PolicyVersion, -1)
    else if !ValidRepository(p.repository) then Fault(Repository, -1)
    else if |p.remote| > 512 || p.remote != ExpectedRemote(p.repository) then Fault(Remote, -1)
    else if |p.refUpdates| < 1 || |p.refUpdates| > MAX_REF_UPDATES then Fault(RefUpdates, -1)
    else
      var k := FirstBadRef(p.refUpdates, 0);
      if k < |p.refUpdates| then Fault(RefFault(p.refUpdates, k), k)
      else if !ValidTime(p.createdAt) then Fault(CreatedAt, -1)
      else if !ValidTime(p.expiresAt) || !(p.createdAt.seconds < p.expiresAt.seconds) then Fault(ExpiresAt, -1)
      else None
  }

  lemma FaultFreeRefs(refs: seq<RefUpdate>)
    ensures GoodRefs(refs)
      <==> 1 <= |refs| <= MAX_REF_UPDATES && forall i :: 0 <= i < |refs| ==> RefFault(refs, i) == NoField
  {
    if GoodRefs(refs) {
      forall i | 0 <= i < |refs| ensures RefFault(refs, i) == NoField {
        assert ValidBranchRef(refs[i].ref);
      }
    } else if 1 <= |refs| <= MAX_REF_UPDATES && forall i :: 0 <= i < |refs| ==> RefFault(refs, i) == NoField {
      forall i | 0 <= i < |refs|
        ensures ValidBranchRef(refs[i].ref) && ValidObjectID(refs[i].expectedOldSHA) && ValidObjectID(refs[i].newSHA)
          && InvalidTransitionField(refs[i]) == NoField {
        assert RefFault(refs, i) == NoField;
      }
      forall i, j | 0 <= i < j < |refs| ensures refs[i].ref != refs[j].ref {
        assert RefFault(refs, j) == NoField;
      }
    }
  }

  /** The ordered checks report nothing exactly for the valid proposals: pairwise distinct refs,
      every field and transition good, times in order. */
  lemma FaultlessMeansValid(p: Proposal)
    requires p.revocationEpoch < 0x1_0000_0000_0000_0000
    ensures ProposalFault(p).None? <==> ValidProposal(p)
  {
    FaultFreeRefs(p.refUpdates);
  }

  /** The loop over the ref updates with its `seen` set: the first bad update and its fault. */
  method CheckRefUpdates(refs: seq<RefUpdate>) returns (index: nat, field: Field)
    ensures index == FirstBadRef(refs, 0)
    ensures field == if index < |refs| then RefFault(refs, index) else NoField
  {
    hide ValidBranchRef, ValidObjectID, InvalidTransitionField;
    var seen: set<string> := {};
    index := 0;
    while index < |refs|
      invariant index <= |refs| && FirstBadRef(refs, index) == FirstBadRef(refs, 0)
      invariant forall r :: r in seen <==> exists j :: 0 <= j < index && refs[j].ref == r
    {
      var update := refs[index];
      if !ValidBranchRef(update.ref) || update.ref in seen { return index, Ref; }
      seen := seen + {update.ref};
      if !ValidObjectID(update.expectedOldSHA) { return index, ExpectedOldSHA; }
      if !ValidObjectID(update.newSHA) { return index, NewSHA; }
      field := InvalidTransitionField(update);
      if field != NoField { return; }
      index := index + 1;
    }
    field := NoField;
  }

  method ValidateProposal(p: Proposal) returns (e: Option<ManifestError>)
    ensures e == ProposalFault(p)
  {
    var checks := [(p.requestID, RequestID), (p.agentID, AgentID), (p.workspaceID, WorkspaceID),
                   (p.policyVersion, PolicyVersion)];
    for i := 0 to 4
      invariant forall j :: 0 <= j < i ==> ValidToken(checks[j].0, 128)
    {
      if !ValidToken(checks[i].0, 128) {
        assert i > 0 ==> ValidToken(checks[0].0, 128);
        assert i > 1 ==> ValidToken(checks[1].0, 128);
        assert i > 2 ==> ValidToken(checks[2].0, 128);
        return Fault(checks[i].1, -1);
      }
    }
    assert ValidToken(checks[0].0, 128) && ValidToken(checks[1].0, 128) && ValidToken(checks[2].0, 128)
      && ValidToken(checks[3].0, 128);
    if !ValidRepository(p.repository) { return Fault(Repository, -1); }
    if |p.remote| > 512 || p.remote != ExpectedRemote(p.repository) { return Fault(Remote, -1); }
    if |p.refUpdates| < 1 || |p.refUpdates| > MAX_REF_UPDATES { return Fault(RefUpdates, -1); }
    var index, field := CheckRefUpdates(p.refUpdates);
    if field != NoField { return Fault(field, index); }
    if !ValidTime(p.createdAt) { return Fault(CreatedAt, -1); }
    if !ValidTime(p.expiresAt) { return Fault(ExpiresAt, -1); }
    if !(p.createdAt.seconds < p.expiresAt.seconds) { return Fault(ExpiresAt, -1); }
    e := None;
  }

  // ---- building ------------------------------------------------------------------------

  function RefNames(): seq<string> { ["ref", "expected_old_sha", "new_sha", "force", "delete"] }

  function Names(): (ns: seq<string>)
    ensures |ns| == 12
  { ["format_version", "request_id", "agent_id", "workspace_id", "repository", "remote", "ref_updates",
                  "policy_version", "revocation_epoch", "created_at", "expires_at", "request_digest"]
  }

  function RefLocations(): seq<Field> { [Ref, ExpectedOldSHA, NewSHA, Force, Delete] }

  function Locations(): (ls: seq<Field>)
    ensures |ls| == 12
  {
    [FormatVersion, RequestID, AgentID, WorkspaceID, Repository, Remote, RefUpdates,
     PolicyVersion, RevocationEpoch, CreatedAt, ExpiresAt, DigestField]
  }

  function Zip(names: seq<string>, values: seq<Json>): (ps: seq<Pair>)
    requires |names| == |values|
    ensures |ps| == |names| && forall i :: 0 <= i < |ps| ==> ps[i] == (names[i], values[i])
  {
    seq(|names|, i requires 0 <= i < |names| => (names[i], values[i]))
  }

  function RefPairs(u: RefUpdate): (ps: seq<Pair>)
    ensures |ps| == 5
  {
    Zip(RefNames(), [Str(u.ref), Str(u.expectedOldSHA), Str(u.newSHA), Bool(u.force), Bool(u.delete)])
  }

  function RefValue(u: RefUpdate): Json { Obj(FromPairs(RefPairs(u))) }

  function RefValues(refs: seq<RefUpdate>): seq<Json> { seq(|refs|, i requires 0 <= i < |refs| => RefValue(refs[i])) }

  function PayloadValues(p: Proposal): (vs: seq<Json>)
    requires ValidProposal(p)
    ensures |vs| == 11
  {
    [Num("1"), Str(p.requestID), Str(p.agentID), Str(p.workspaceID), Str(p.repository), Str(p.remote),
     Arr(FromSeq(RefValues(p.refUpdates))), Str(p.policyVersion), Num(Decimal(p.revocationEpoch)),
     Str(FormatTime(p.createdAt.seconds)), Str(FormatTime(p.expiresAt.seconds))]
  }

  function PayloadPairs(p: Proposal): seq<Pair>
    requires ValidProposal(p)
  {
    Zip(Names()[..11], PayloadValues(p))
  }

  function PayloadEncoding(p: Proposal): string
    requires ValidProposal(p)
  {
    Encode(Obj(FromPairs(PayloadPairs(p))))
  }

  /** The sum in hexadecimal. */
  function HashOf(hash: Hasher, x: string): (h: string)
    ensures |h| == 64 && AllLowerHex(h)
  {
    var sum := hash.sum(x);
    seq(64, i requires 0 <= i < 64 => HexDigit(if i % 2 == 0 then sum[i / 2] / 16 else sum[i / 2] % 16))
  }

  function Labelled(hex: string): (d: string)
    requires |hex| == 64 && AllLowerHex(hex)
    ensures IsDigest(d)
  {
    var d := "sha256:" + hex;
    assert d[..7] == "sha256:" && d[7..] == hex;
    d
  }

  function RequestDigest(hash: Hasher, p: Proposal): (d: string)
    requires ValidProposal(p)
    ensures IsDigest(d)
  {
    Labelled(HashOf(hash, DIGEST_DOMAIN + PayloadEncoding(p)))
  }

  function PublicPairs(p: Proposal, digest: string): (ps: seq<Pair>)
    requires ValidProposal(p)
    ensures |ps| == 12 && forall i :: 0 <= i < |ps| ==> ps[i].0 == Names()[i]
  {
    Zip(Names(), PayloadValues(p) + [Str(digest)])
  }

  function PublicEncoding(p: Proposal, digest: string): string
    requires ValidProposal(p)
  {
    Encode(Obj(FromPairs(PublicPairs(p, digest))))
  }

  function BuildValidated(hash: Hasher, p: Proposal): Result<Manifest, ManifestError>
    requires ValidProposal(p)
  {
    var digest := RequestDigest(hash, p);
    var encoding := PublicEncoding(p, digest);
    if |encoding| > MAX_ENCODING_BYTES then Err(ManifestError(Internal, Encoding, -1))
    else Ok(Manifest(p, digest, encoding))
  }

  function Build(hash: Hasher, p: Proposal): Result<Manifest, ManifestError>
    requires p.revocationEpoch < 0x1_0000_0000_0000_0000
  {
    FaultlessMeansValid(p);
    match ProposalFault(p)
    case Some(e) => Err(e)
    case None => BuildValidated(hash, p)
  }

  // ---- parsing -------------------------------------------------------------------------

  /** The first of the required names an object does not have. */
  function FirstMissing(names: seq<string>, locations: seq<Field>, fields: Fields): Option<Field>
    requires |names| == |locations|
  {
    if names == [] then None
    else if Lookup(fields, names[0]).None? then Some(locations[0])
    else FirstMissing(names[1..], locations[1..], fields)
  }

  predicate ObjectOrNull(v: Json) { v.Obj? || v.Null? }

  function FieldsOf(v: Json): Fields { if v.Obj? then v.fields else NoFields }

  function MissingInUpdates(vs: seq<Json>, index: nat): Option<ManifestError> {
    if vs == [] then None else
    match FirstMissing(RefNames(), RefLocations(), FieldsOf(vs[0]))
    case Some(field) => Some(ManifestError(Parsing, field, index))
    case None => MissingInUpdates(vs[1..], index + 1)
  }

  function MissingWireField(v: Json): Option<ManifestError> {
    if !v.Obj? then Some(ManifestError(Parsing, Encoding, -1)) else
    match FirstMissing(Names(), Locations(), v.fields)
    case Some(field) => Some(ManifestError(Parsing, field, -1))
    case None =>
      match Lookup(v.fields, "ref_updates")
      case Some(Null) => None
      case Some(Arr(items)) =>
        if forall e :: e in ToSeq(items) ==> ObjectOrNull(e) then MissingInUpdates(ToSeq(items), 0)
        else Some(ManifestError(Parsing, RefUpdates, -1))
      case _ => Some(ManifestError(Parsing, RefUpdates, -1))
  }

  // A null leaves the Go field at its zero value.

  function TextField(fields: Fields, name: string): Option<string> {
    match Lookup(fields, name)
    case None => Some("")
    case Some(Null) => Some("")
    case Some(Str(s)) => Some(s)
    case _ => None
  }

  function BoolField(fields: Fields, name: string): Option<bool> {
    match Lookup(fields, name)
    case None => Some(false)
    case Some(Null) => Some(false)
    case Some(Bool(b)) => Some(b)
    case _ => None
  }

  function UintField(fields: Fields, name: string): (r: Option<nat>)
    ensures r.Some? ==> r.value < 0x1_0000_0000_0000_0000
  {
    match Lookup(fields, name)
    case None => Some(0)
    case Some(Null) => Some(0)
    case Some(Num(lexeme)) => Uint64Of(lexeme)
    case _ => None
  }

  predicate OnlyNames(fields: Fields, names: seq<string>) {
    forall k :: k in Scanner.Keys(fields) ==> k in names
  }

  function DecodeRef(v: Json): Option<RefUpdate> {
    if !ObjectOrNull(v) || !OnlyNames(FieldsOf(v), RefNames()) then None else
    var fields := FieldsOf(v);
    var ref :- TextField(fields, "ref");
    var oldSHA :- TextField(fields, "expected_old_sha");
    var newSHA :- TextField(fields, "new_sha");
    var force :- BoolField(fields, "force");
    var delete :- BoolField(fields, "delete");
    Some(RefUpdate(ref, oldSHA, newSHA, force, delete))
  }

  function DecodeRefs(vs: seq<Json>): Option<seq<RefUpdate>> {
    if vs == [] then Some([]) else
    var first :- DecodeRef(vs[0]);
    var others :- DecodeRefs(vs[1..]);
    Some([first] + others)
  }

  function RefsField(fields: Fields): Option<seq<RefUpdate>> {
    match Lookup(fields, "ref_updates")
    case None => Some([])
    case Some(Null) => Some([])
    case Some(Arr(items)) => DecodeRefs(ToSeq(items))
    case _ => None
  }

  /** time.Parse whose error is ignored: unreadable text gives the zero time. */
  function StampOf(text: string): Stamp {
    match ParseTime(text)
    case Some(t) => Stamp(t, 0, true)
    case None => Stamp(ZERO_TIME, 0, true)
  }

  datatype Wire = Wire(formatVersion: nat, proposal: Proposal, requestDigest: string)

  function DecodeWire(v: Json): (r: Option<Wire>)
    ensures r.Some? ==> r.value.proposal.revocationEpoch < 0x1_0000_0000_0000_0000
  {
    if !v.Obj? || !OnlyNames(v.fields, Names()) then None else
    var version :- UintField(v.fields, "format_version");
    var requestID :- TextField(v.fields, "request_id");
    var agentID :- TextField(v.fields, "agent_id");
    var workspaceID :- TextField(v.fields, "workspace_id");
    var repository :- TextField(v.fields, "repository");
    var remote :- TextField(v.fields, "remote");
    var refs :- RefsField(v.fields);
    var policyVersion :- TextField(v.fields, "policy_version");
    var epoch :- UintField(v.fields, "revocation_epoch");
    var created :- TextField(v.fields, "created_at");
    var expires :- TextField(v.fields, "expires_at");
    var digest :- TextField(v.fields, "request_digest");
    Some(Wire(version,
              Proposal(requestID, agentID, workspaceID, repository, remote, refs, policyVersion, epoch,
                StampOf(created), StampOf(expires)),
              digest))
  }

  function Parse(hash: Hasher, raw: string): Result<Manifest, ManifestError> {
    if |raw| == 0 || |raw| > MAX_ENCODING_BYTES then Err(ManifestError(Parsing, Encoding, -1)) else
    match Decode(raw)
    case None => Err(ManifestError(Parsing, Encoding, -1))
    case Some(v) =>
      if Scanner.ScanValue(Scanner.Flatten(v), true).Duplicate? then Err(ManifestError(DuplicateKey, Encoding, -1))
      else if MissingWireField(v).Some? then Err(MissingWireField(v).value)
      else
        match DecodeWire(v)
        case None => Err(ManifestError(Parsing, Encoding, -1))
        case Some(w) => FinishParse(hash, raw, w)
  }

  function FinishParse(hash: Hasher, raw: string, w: Wire): Result<Manifest, ManifestError>
    requires w.proposal.revocationEpoch < 0x1_0000_0000_0000_0000
  {
    FaultlessMeansValid(w.proposal);
    if w.formatVersion != 1 then Err(ManifestError(Invalid, FormatVersion, -1))
    else if ProposalFault(w.proposal).Some? then Err(ProposalFault(w.proposal).value)
    else if !IsDigest(w.requestDigest) then Err(ManifestError(Digest, DigestField, -1))
    else
      match BuildValidated(hash, w.proposal)
      case Err(_) => Err(ManifestError(Internal, Encoding, -1))
      case Ok(m) =>
        if w.requestDigest != m.requestDigest then Err(ManifestError(Digest, DigestField, -1))
        else if raw != m.encoding then Err(ManifestError(NonCanonical, Encoding, -1))
        else Ok(m)
  }

  // ---- Parse inverts Build ----------------------------------------------------------------

  lemma RefNamesDistinct()
    ensures forall i, j :: 0 <= i < j < |RefNames()| ==> RefNames()[i] != RefNames()[j]
  {
  }

  lemma WireNamesDistinct()
    ensures forall i, j :: 0 <= i < j < |Names()| ==> Names()[i] != Names()[j]
  {
    assert Names()[0][0] == 'f' && Names()[1][0] == 'r' && Names()[1][2] == 'q' && Names()[4][2] == 'p'
      && Names()[7][0] == 'p'
      && Names()[9][0] == 'c' && Names()[10][0] == 'e' && Names()[11][0] == 'r' && Names()[4][0] == 'r';
  }

  lemma {:induction false} NothingMissing(names: seq<string>, locations: seq<Field>, fields: Fields)
    requires |names| == |locations| && forall i :: 0 <= i < |names| ==> Lookup(fields, names[i]).Some?
    ensures FirstMissing(names, locations, fields) == None
  {
    if names != [] { NothingMissing(names[1..], locations[1..], fields); }
  }

  lemma DecodeRefValue(u: RefUpdate)
    ensures WellFormed(RefValue(u)) && Scanner.KeysDistinct(RefValue(u))
    ensures FirstMissing(RefNames(), RefLocations(), FieldsOf(RefValue(u))) == None
    ensures DecodeRef(RefValue(u)) == Some(u)
  {
    hide FromPairs, FirstMissing;
    var ps := RefPairs(u);
    var fields := FromPairs(ps);
    RefNamesDistinct();
    WellFormedPairs(ps);
    Scanner.KeysDistinctObject(ps);
    Scanner.KeysOfPairs(ps);
    forall i | 0 <= i < |ps| ensures Lookup(fields, RefNames()[i]) == Some(ps[i].1) { LookupPair(ps, i); }
    NothingMissing(RefNames(), RefLocations(), fields);
    assert RefNames()[0] == "ref" && RefNames()[1] == "expected_old_sha" && RefNames()[2] == "new_sha"
      && RefNames()[3] == "force" && RefNames()[4] == "delete";
  }

  lemma {:induction false} DecodeRefValues(refs: seq<RefUpdate>, index: nat)
    ensures DecodeRefs(RefValues(refs)) == Some(refs)
    ensures MissingInUpdates(RefValues(refs), index) == None
  {
    if refs != [] {
      DecodeRefValue(refs[0]);
      DecodeRefValues(refs[1..], index + 1);
      assert RefValues(refs)[1..] == RefValues(refs[1..]);
      assert refs == [refs[0]] + refs[1..];
    }
  }

  lemma DecodeStamp(t: Stamp)
    requires ValidTime(t)
    ensures StampOf(FormatTime(t.seconds)) == t
  {
    ParseFormatTime(t.seconds);
  }

  /** The value of the public document: well formed, without repeated keys, complete. */
  lemma PublicValuesGood(p: Proposal, digest: string)
    requires ValidProposal(p)
    ensures forall i :: 0 <= i < 12 ==>
      WellFormed(PublicPairs(p, digest)[i].1) && Scanner.KeysDistinct(PublicPairs(p, digest)[i].1)
  {
    hide RefValue, FormatTime, Decimal, ExpectedRemote, Names, ValidProposal;
    var ps := PublicPairs(p, digest);
    var vs := RefValues(p.refUpdates);
    forall i | 0 <= i < |vs|
      ensures WellFormed(vs[i]) && Scanner.KeysDistinct(vs[i])
    {
      DecodeRefValue(p.refUpdates[i]);
    }
    WellFormedSeq(vs);
    Scanner.KeysDistinctSeq(vs);
    DecimalIsNumber(1);
    DecimalIsNumber(p.revocationEpoch);
    OneText();
    forall i | 0 <= i < 12 ensures WellFormed(ps[i].1) && Scanner.KeysDistinct(ps[i].1) {
      if i == 0 { assert ps[i].1 == Num("1"); }
      else if i == 6 { assert ps[i].1 == Arr(FromSeq(vs)); }
      else if i == 8 { assert ps[i].1 == Num(Decimal(p.revocationEpoch)); }
      else { assert ps[i].1.Str?; }
    }
  }

  lemma OneText()
    ensures Decimal(1) == "1"
  {
  }

  lemma ObjectGood(ps: seq<Pair>)
    requires forall i :: 0 <= i < |ps| ==> WellFormed(ps[i].1) && Scanner.KeysDistinct(ps[i].1)
    requires |ps| == 12 && NamesDistinct(ps) && forall i :: 0 <= i < 12 ==> ps[i].0 == Names()[i]
    ensures WellFormed(Obj(FromPairs(ps))) && Scanner.KeysDistinct(Obj(FromPairs(ps)))
      && OnlyNames(FromPairs(ps), Names())
  {
    hide Names, FromPairs;
    WellFormedPairs(ps);
    Scanner.KeysDistinctObject(ps);
    Scanner.KeysOfPairs(ps);
  }

  lemma PublicValue(p: Proposal, digest: string)
    requires ValidProposal(p)
    ensures var ps := PublicPairs(p, digest);
      WellFormed(Obj(FromPairs(ps))) && Scanner.KeysDistinct(Obj(FromPairs(ps)))
      && (forall i :: 0 <= i < 12 ==> Lookup(FromPairs(ps), Names()[i]) == Some(ps[i].1))
      && FirstMissing(Names(), Locations(), FromPairs(ps)) == None && OnlyNames(FromPairs(ps), Names())
  {
    hide WellFormed, Scanner.KeysDistinct, Lookup, FirstMissing, OnlyNames, ValidProposal, Names, Locations,
      PublicPairs, FromPairs;
    var ps := PublicPairs(p, digest);
    PublicValuesGood(p, digest);
    WireNamesDistinct();
    ObjectGood(ps);
    forall i | 0 <= i < 12 ensures Lookup(FromPairs(ps), Names()[i]) == Some(ps[i].1) { LookupPair(ps, i); }
    NothingMissing(Names(), Locations(), FromPairs(ps));
  }

  lemma NameList()
    ensures Names()[0] == "format_version" && Names()[1] == "request_id" && Names()[2] == "agent_id"
      && Names()[3] == "workspace_id"
    ensures Names()[4] == "repository" && Names()[5] == "remote" && Names()[6] == "ref_updates"
      && Names()[7] == "policy_version"
    ensures Names()[8] == "revocation_epoch" && Names()[9] == "created_at" && Names()[10] == "expires_at"
      && Names()[11] == "request_digest"
  {
  }

  lemma NameLengths()
    ensures |Names()[0]| == 14 && |Names()[1]| == 10 && |Names()[2]| == 8 && |Names()[3]| == 12 && |Names()[4]| == 10
      && |Names()[5]| == 6
    ensures |Names()[6]| == 11 && |Names()[7]| == 14 && |Names()[8]| == 16 && |Names()[9]| == 10 && |Names()[10]| == 10
      && |Names()[11]| == 14
  {
  }

  lemma CompletePublicValue(p: Proposal, digest: string)
    requires ValidProposal(p)
    ensures MissingWireField(Obj(FromPairs(PublicPairs(p, digest)))) == None
    ensures RefsField(FromPairs(PublicPairs(p, digest))) == Some(p.refUpdates)
  {
    hide WellFormed, Scanner.KeysDistinct, FromPairs, ValidProposal, FormatTime, Decimal, ExpectedRemote, OnlyNames;
    var fields, vs := FromPairs(PublicPairs(p, digest)), RefValues(p.refUpdates);
    PublicValue(p, digest);
    NameList();
    assert Lookup(fields, Names()[6]) == Some(Arr(FromSeq(vs)));
    ToSeqOfFromSeq(vs);
    assert forall e :: e in vs ==> ObjectOrNull(e);
    DecodeRefValues(p.refUpdates, 0);
  }

  lemma DecodeNumbers(p: Proposal, digest: string)
    requires ValidProposal(p)
    ensures UintField(FromPairs(PublicPairs(p, digest)), "format_version") == Some(1)
    ensures UintField(FromPairs(PublicPairs(p, digest)), "revocation_epoch") == Some(p.revocationEpoch)
  {
    assert p.revocationEpoch < 0x1_0000_0000_0000_0000;
    hide WellFormed, Scanner.KeysDistinct, FromPairs, ValidProposal, FormatTime, Decimal, ExpectedRemote, OnlyNames,
      FirstMissing, Lookup, RefValues, UintField;
    var fields := FromPairs(PublicPairs(p, digest));
    PublicValue(p, digest);
    NameList();
    UintRead(fields, "format_version", 1);
    UintRead(fields, "revocation_epoch", p.revocationEpoch);
    assert Decimal(1) == "1" by { DecimalOne(); }
    assert Lookup(fields, Names()[0]) == Some(Num("1"));
    assert Lookup(fields, Names()[8]) == Some(Num(Decimal(p.revocationEpoch)));
  }

  lemma DecimalOne()
    ensures Decimal(1) == "1"
  {
  }

  lemma UintRead(fields: Fields, name: string, n: nat)
    ensures Lookup(fields, name) == Some(Num(Decimal(n))) && n < 0x1_0000_0000_0000_0000
            ==> UintField(fields, name) == Some(n)
  {
    DecimalValueOfDecimal(n);
  }

  lemma DecodeTexts(p: Proposal, digest: string)
    requires ValidProposal(p)
    ensures var fields := FromPairs(PublicPairs(p, digest));
      TextField(fields, "request_id") == Some(p.requestID) && TextField(fields, "agent_id") == Some(p.agentID)
      && TextField(fields, "workspace_id") == Some(p.workspaceID)
      && TextField(fields, "repository") == Some(p.repository)
      && TextField(fields, "remote") == Some(p.remote) && TextField(fields, "policy_version") == Some(p.policyVersion)
      && TextField(fields, "created_at") == Some(FormatTime(p.createdAt.seconds))
      && TextField(fields, "expires_at") == Some(FormatTime(p.expiresAt.seconds))
      && TextField(fields, "request_digest") == Some(digest)
  {
    hide WellFormed, Scanner.KeysDistinct, FromPairs, ValidProposal, FormatTime, Decimal, ExpectedRemote, OnlyNames,
      FirstMissing, Lookup, RefValues;
    var fields := FromPairs(PublicPairs(p, digest));
    PublicValue(p, digest);
    NameList();
    assert Lookup(fields, Names()[1]) == Some(Str(p.requestID)) && Lookup(fields, Names()[2]) == Some(Str(p.agentID));
    assert Lookup(fields, Names()[3]) == Some(Str(p.workspaceID))
      && Lookup(fields, Names()[4]) == Some(Str(p.repository));
    assert Lookup(fields, Names()[5]) == Some(Str(p.remote))
      && Lookup(fields, Names()[7]) == Some(Str(p.policyVersion));
    assert Lookup(fields, Names()[9]).Some? && Lookup(fields, Names()[10]).Some?
      && Lookup(fields, Names()[11]) == Some(Str(digest));
  }

  lemma DecodePublicValue(p: Proposal, digest: string)
    requires ValidProposal(p)
    ensures DecodeWire(Obj(FromPairs(PublicPairs(p, digest)))) == Some(Wire(1, p, digest))
  {
    PublicValue(p, digest);
    CompletePublicValue(p, digest);
    DecodeNumbers(p, digest);
    DecodeTexts(p, digest);
    DecodeStamp(p.createdAt);
    DecodeStamp(p.expiresAt);
  }

  // ---- size --------------------------------------------------------------------------------

  /** Every manifest is shorter than this; the limit leaves ample room. */
  const MANIFEST_BOUND := 22_000

  lemma PlainRepository(r: string)
    requires ValidRepository(r)
    ensures Plain(r)
  {
    var parts := Split(r, '/');
    forall i | 0 <= i < |r| ensures ' ' <= r[i] && r[i] !in {'"', '\\', '<', '>', '&'} {
      if r[i] != '/' {
        SplitCovers(r, '/', i);
        var k :| 0 <= k < |parts| && r[i] in parts[k];
        assert ManifestPart(parts[k]);
      }
    }
  }

  lemma PlainRef(ref: string)
    requires ValidBranchRef(ref)
    ensures Plain(ref)
  {
    var suffix := ref[11..];
    assert ref == "refs/heads/" + suffix;
    forall i | 0 <= i < |suffix| ensures ' ' <= suffix[i] && suffix[i] !in {'"', '\\', '<', '>', '&'} {
      if suffix[i] != '/' {
        SplitCovers(suffix, '/', i);
        var parts := Split(suffix, '/');
        var k :| 0 <= k < |parts| && suffix[i] in parts[k];
        assert ValidSegment(parts[k]);
      }
    }
  }

  /** A byte bound for one pair: its name may be escaped, its value is as measured. */
  predicate PairFits(p: Pair, bound: nat) { 6 * |p.0| + |Encode(p.1)| + 4 <= bound }

  lemma AddPair(ps: seq<Pair>, n: nat, prior: nat, bound: nat)
    requires n < |ps| && PairBytes(ps, n) <= prior && PairFits(ps[n], bound)
    ensures PairBytes(ps, n + 1) <= prior + bound
  {
    EscapeLength(ps[n].0);
  }

  function Total(bounds: seq<nat>, n: nat): nat
    requires n <= |bounds|
  {
    if n == 0 then 0 else Total(bounds, n - 1) + bounds[n - 1]
  }

  lemma {:induction false} PairsFit(ps: seq<Pair>, bounds: seq<nat>, n: nat)
    requires |ps| == |bounds| && n <= |ps| && forall i :: 0 <= i < |ps| ==> PairFits(ps[i], bounds[i])
    ensures PairBytes(ps, n) <= Total(bounds, n)
  {
    if n > 0 {
      PairsFit(ps, bounds, n - 1);
      AddPair(ps, n - 1, Total(bounds, n - 1), bounds[n - 1]);
    }
  }

  lemma PlainText(s: string, n: nat)
    requires Plain(s) && |s| <= n
    ensures |Encode(Str(s))| <= n + 2
  {
    EscapePlain(s);
  }

  lemma AnyText(s: string, n: nat)
    requires |s| <= n
    ensures |Encode(Str(s))| <= 6 * n + 2
  {
    EscapeLength(s);
  }

  lemma RefPairsFit(u: RefUpdate)
    requires ValidBranchRef(u.ref) && ValidObjectID(u.expectedOldSHA) && ValidObjectID(u.newSHA)
    ensures var ps := RefPairs(u);
      PairFits(ps[0], 280) && PairFits(ps[1], 142) && PairFits(ps[2], 88) && PairFits(ps[3], 39) && PairFits(ps[4], 45)
  {
    PlainRef(u.ref);
    PlainText(u.ref, 256);
    PlainText(u.expectedOldSHA, 40);
    PlainText(u.newSHA, 40);
    assert |Encode(Bool(u.force))| <= 5 && |Encode(Bool(u.delete))| <= 5;
    assert |RefNames()[0]| == 3 && |RefNames()[1]| == 16 && |RefNames()[2]| == 7 && |RefNames()[3]| == 5
      && |RefNames()[4]| == 6;
    hide RefNames, Encode, ValidBranchRef, ValidObjectID;
  }

  lemma RefTotal(bounds: seq<nat>)
    requires bounds == [280, 142, 88, 39, 45]
    ensures Total(bounds, 5) == 594
  {
    assert Total(bounds, 1) == 280;
    assert Total(bounds, 3) == 510;
  }

  lemma RefLength(u: RefUpdate)
    requires ValidBranchRef(u.ref) && ValidObjectID(u.expectedOldSHA) && ValidObjectID(u.newSHA)
    ensures |Encode(Obj(FromPairs(RefPairs(u))))| <= 596
  {
    hide *;
    var ps := RefPairs(u);
    var bounds := [280, 142, 88, 39, 45];
    RefTotal(bounds);
    RefPairsFit(u);
    ObjectLength(ps);
    FieldsLength(ps);
    PairsFit(ps, bounds, 5);
  }

  lemma RefsLength(refs: seq<RefUpdate>)
    requires GoodRefs(refs)
    ensures |Encode(Arr(FromSeq(RefValues(refs))))| <= 19_106
  {
    var vs := RefValues(refs);
    forall i | 0 <= i < |vs| ensures |Encode(vs[i])| <= 596 { RefLength(refs[i]); }
    ItemsLength(vs, 596);
    RefsProduct(|refs|);
  }

  lemma RefsProduct(n: nat)
    requires n <= 32
    ensures n * 597 <= 19_104
  {
  }

  lemma PlainRemote(p: Proposal)
    requires Plain(p.repository) && p.remote == ExpectedRemote(p.repository)
    ensures Plain(p.remote)
  {
    var before, after := "https://github.com/", ".git";
    assert Plain(before) && Plain(after);
    forall i | 0 <= i < |p.remote| ensures ' ' <= p.remote[i] && p.remote[i] !in {'"', '\\', '<', '>', '&'} {
      if i < |before| { assert p.remote[i] == before[i]; }
      else if i < |before| + |p.repository| { assert p.remote[i] == p.repository[i - |before|]; }
      else { assert p.remote[i] == after[i - |before| - |p.repository|]; }
    }
  }

  lemma RepositoryLengths(p: Proposal)
    requires ValidProposal(p)
    ensures |Encode(Str(p.repository))| <= 258 && |Encode(Str(p.remote))| <= 514
  {
    PlainRepository(p.repository);
    PlainText(p.repository, 256);
    PlainRemote(p);
    PlainText(p.remote, 512);
  }

  lemma EpochLength(n: nat)
    requires n < 0x1_0000_0000_0000_0000
    ensures |Encode(Num(Decimal(n)))| <= 20
  {
    PowersOfTen();
    DecimalLength(n, 20);
  }

  lemma TimeLength(t: Stamp)
    requires ValidTime(t)
    ensures |Encode(Str(FormatTime(t.seconds)))| <= 122
  {
    ParseFormatTime(t.seconds);
    AnyText(FormatTime(t.seconds), 20);
  }

  lemma PublicPairAt(p: Proposal, digest: string, i: nat, bound: nat)
    requires ValidProposal(p) && i < 12
    requires 6 * |Names()[i]| + |Encode((PayloadValues(p) + [Str(digest)])[i])| + 4 <= bound
    ensures PairFits(PublicPairs(p, digest)[i], bound)
  {
    hide ValidProposal, Names, Encode, PayloadValues;
  }

  lemma TokenLength(v: string, limit: nat)
    requires ValidToken(v, limit)
    ensures |Encode(Str(v))| <= limit + 2
  {
    PlainText(v, limit);
  }

  lemma TokenLengths(p: Proposal)
    requires ValidProposal(p)
    ensures |Encode(Str(p.requestID))| <= 130 && |Encode(Str(p.agentID))| <= 130 && |Encode(Str(p.workspaceID))| <= 130
      && |Encode(Str(p.policyVersion))| <= 130
  {
    hide Encode, ValidToken, GoodRefs, ValidRepository, ValidTime, ExpectedRemote;
    TokenLength(p.requestID, 128);
    TokenLength(p.agentID, 128);
    TokenLength(p.workspaceID, 128);
    TokenLength(p.policyVersion, 128);
  }

  lemma IdentityPairsFit(p: Proposal, digest: string)
    requires ValidProposal(p)
    ensures var ps := PublicPairs(p, digest);
      PairFits(ps[1], 194) && PairFits(ps[2], 182) && PairFits(ps[3], 206) && PairFits(ps[7], 218)
  {
    hide PublicPairs, ValidProposal, Names, Encode, ValidToken, FormatTime, RefValues, Decimal;
    TokenLengths(p);
    NameLengths();
    PublicPairAt(p, digest, 1, 194);
    PublicPairAt(p, digest, 2, 182);
    PublicPairAt(p, digest, 3, 206);
    PublicPairAt(p, digest, 7, 218);
  }

  lemma DigestLength(digest: string)
    requires IsDigest(digest)
    ensures |Encode(Str(digest))| <= 428
  {
    AnyText(digest, 71);
  }

  lemma RemotePairsFit(p: Proposal, digest: string)
    requires ValidProposal(p) && IsDigest(digest)
    ensures var ps := PublicPairs(p, digest); PairFits(ps[4], 322) && PairFits(ps[5], 554) && PairFits(ps[11], 516)
  {
    hide PublicPairs, ValidProposal, Names, Encode, FormatTime, RefValues, Decimal;
    RepositoryLengths(p);
    DigestLength(digest);
    NameLengths();
    PublicPairAt(p, digest, 4, 322);
    PublicPairAt(p, digest, 5, 554);
    PublicPairAt(p, digest, 11, 516);
  }

  lemma TimeLengths(p: Proposal)
    requires ValidProposal(p)
    ensures |Encode(Str(FormatTime(p.createdAt.seconds)))| <= 122
    ensures |Encode(Str(FormatTime(p.expiresAt.seconds)))| <= 122
    ensures |Encode(Num(Decimal(p.revocationEpoch)))| <= 20
  {
    hide Encode, Decimal, FormatTime, ValidTime, GoodRefs, ValidToken;
    TimeLength(p.createdAt);
    TimeLength(p.expiresAt);
    EpochLength(p.revocationEpoch);
  }

  lemma TimeValues(p: Proposal, digest: string)
    requires ValidProposal(p)
    ensures var vs := PayloadValues(p) + [Str(digest)];
      vs[8] == Num(Decimal(p.revocationEpoch)) && vs[9] == Str(FormatTime(p.createdAt.seconds))
      && vs[10] == Str(FormatTime(p.expiresAt.seconds))
  {
    hide ValidProposal, FormatTime, RefValues, Decimal, ExpectedRemote;
  }

  lemma OtherValues(p: Proposal, digest: string)
    requires ValidProposal(p)
    ensures var vs := PayloadValues(p) + [Str(digest)];
      vs[0] == Num("1") && vs[6] == Arr(FromSeq(RefValues(p.refUpdates)))
  {
    hide ValidProposal, FormatTime, RefValues, Decimal, ExpectedRemote;
  }

  lemma TimePairsFit(p: Proposal, digest: string)
    requires ValidProposal(p)
    ensures var ps := PublicPairs(p, digest); PairFits(ps[9], 186) && PairFits(ps[10], 186) && PairFits(ps[8], 120)
  {
    TimeLengths(p);
    NameLengths();
    TimeValues(p, digest);
    hide PublicPairs, ValidProposal, Names, Encode, ValidToken, FormatTime, RefValues, Decimal, PayloadValues;
    PublicPairAt(p, digest, 8, 120);
    PublicPairAt(p, digest, 9, 186);
    PublicPairAt(p, digest, 10, 186);
  }

  lemma OtherPairsFit(p: Proposal, digest: string)
    requires ValidProposal(p)
    ensures var ps := PublicPairs(p, digest); PairFits(ps[0], 89) && PairFits(ps[6], 19_176)
  {
    RefsLength(p.refUpdates);
    NameLengths();
    OtherValues(p, digest);
    assert |Encode(Num("1"))| == 1;
    hide PublicPairs, ValidProposal, Names, Encode, ValidToken, FormatTime, RefValues, Decimal, PayloadValues;
    PublicPairAt(p, digest, 0, 89);
    PublicPairAt(p, digest, 6, 19_176);
  }

  lemma PayloadTotal(bounds: seq<nat>)
    requires bounds == [89, 194, 182, 206, 322, 554, 19_176, 218, 120, 186, 186, 516]
    ensures Total(bounds, 12) == 21_949
  {
    assert Total(bounds, 1) == 89;
    assert Total(bounds, 2) == 283;
    assert Total(bounds, 4) == 671;
    assert Total(bounds, 6) == 1547;
    assert Total(bounds, 8) == 20_941;
    assert Total(bounds, 10) == 21_247;
    assert Total(bounds, 11) == 21_433;
  }

  lemma PayloadBytes(p: Proposal, digest: string)
    requires ValidProposal(p) && IsDigest(digest)
    ensures PairBytes(PublicPairs(p, digest), 12) <= 21_949
  {
    hide *;
    var bounds := [89, 194, 182, 206, 322, 554, 19_176, 218, 120, 186, 186, 516];
    IdentityPairsFit(p, digest);
    RemotePairsFit(p, digest);
    TimePairsFit(p, digest);
    OtherPairsFit(p, digest);
    PayloadTotal(bounds);
    PairsFit(PublicPairs(p, digest), bounds, 12);
  }

  lemma ObjectLength(ps: seq<Pair>)
    ensures |Encode(Obj(FromPairs(ps)))| == |EncodeFields(FromPairs(ps))| + 2
  {
  }

  lemma EncodingFits(p: Proposal, digest: string)
    requires ValidProposal(p) && IsDigest(digest)
    ensures 0 < |PublicEncoding(p, digest)| <= MANIFEST_BOUND
  {
    var ps := PublicPairs(p, digest);
    PayloadBytes(p, digest);
    FieldsLength(ps);
    ObjectLength(ps);
    hide PublicPairs, ValidProposal, Encode, PairBytes;
  }

  /** Every valid proposal is built: the size check in `buildValidated` never fails. */
  lemma BuildNeverFails(hash: Hasher, p: Proposal)
    requires ValidProposal(p)
    ensures Build(hash, p) == BuildValidated(hash, p)
    ensures Build(hash, p) == Ok(Manifest(p, RequestDigest(hash, p), PublicEncoding(p, RequestDigest(hash, p))))
    ensures 0 < |Build(hash, p).value.encoding| <= MANIFEST_BOUND < MAX_ENCODING_BYTES
  {
    FaultlessMeansValid(p);
    EncodingFits(p, RequestDigest(hash, p));
  }

  // ---- main results ------------------------------------------------------------------------

  lemma ParseVia(hash: Hasher, raw: string, v: Json, w: Wire)
    requires 0 < |raw| <= MAX_ENCODING_BYTES && Decode(raw) == Some(v) && Scanner.KeysDistinct(v)
    requires MissingWireField(v) == None && DecodeWire(v) == Some(w)
      && w.proposal.revocationEpoch < 0x1_0000_0000_0000_0000
    ensures Parse(hash, raw) == FinishParse(hash, raw, w)
  {
    Scanner.ScanOfFlatten(v, [], true);
    assert Scanner.Flatten(v) + [] == Scanner.Flatten(v);
  }

  lemma FinishParseOfBuilt(hash: Hasher, w: Wire, m: Manifest)
    requires w.formatVersion == 1 && ValidProposal(w.proposal) && IsDigest(w.requestDigest)
    requires BuildValidated(hash, w.proposal) == Ok(m) && w.requestDigest == m.requestDigest
    ensures FinishParse(hash, m.encoding, w) == Ok(m)
  {
    FaultlessMeansValid(w.proposal);
  }

  /** What `Build` emits, `Parse` reads back as the very same manifest. */
  lemma ParseOfBuild(hash: Hasher, p: Proposal)
    requires ValidProposal(p)
    ensures Build(hash, p).Ok?
    ensures Parse(hash, Build(hash, p).value.encoding) == Build(hash, p)
  {
    BuildNeverFails(hash, p);
    var m := Build(hash, p).value;
    var v := Obj(FromPairs(PublicPairs(p, m.requestDigest)));
    PublicValue(p, m.requestDigest);
    DecodeOfEncode(v);
    CompletePublicValue(p, m.requestDigest);
    DecodePublicValue(p, m.requestDigest);
    ParseVia(hash, m.encoding, v, Wire(1, p, m.requestDigest));
    FinishParseOfBuilt(hash, Wire(1, p, m.requestDigest), m);
  }

  lemma FinishParseAccepts(hash: Hasher, raw: string, w: Wire)
    requires w.proposal.revocationEpoch < 0x1_0000_0000_0000_0000 && FinishParse(hash, raw, w).Ok?
    ensures ValidProposal(w.proposal) && FinishParse(hash, raw, w) == BuildValidated(hash, w.proposal)
    ensures FinishParse(hash, raw, w).value.proposal == w.proposal && FinishParse(hash, raw, w).value.encoding == raw
  {
    hide PublicEncoding, RequestDigest, ValidProposal;
    FaultlessMeansValid(w.proposal);
  }

  /** `Parse` accepts exactly the byte strings `Build` emits, and returns what was built. */
  lemma ParseAcceptsExactly(hash: Hasher, raw: string)
    ensures Parse(hash, raw).Ok?
      <==> exists p :: ValidProposal(p) && Build(hash, p).Ok? && Build(hash, p).value.encoding == raw
    ensures Parse(hash, raw).Ok? ==>
      var m := Parse(hash, raw).value;
      ValidProposal(m.proposal) && Build(hash, m.proposal) == Ok(m) && m.encoding == raw
  {
    if Parse(hash, raw).Ok? {
      var w := DecodeWire(Decode(raw).value).value;
      FinishParseAccepts(hash, raw, w);
      BuildNeverFails(hash, w.proposal);
    }
    if p :| ValidProposal(p) && Build(hash, p).Ok? && Build(hash, p).value.encoding == raw {
      ParseOfBuild(hash, p);
    }
  }

  /** Distinct valid proposals have distinct payloads, so the digested text names one proposal. */
  lemma PayloadIsUnambiguous(p: Proposal, q: Proposal)
    requires ValidProposal(p) && ValidProposal(q)
    requires PayloadEncoding(p) == PayloadEncoding(q)
    ensures p == q
  {
    PayloadWellFormed(p);
    PayloadWellFormed(q);
    DecodeOfEncode(Obj(FromPairs(PayloadPairs(p))));
    DecodeOfEncode(Obj(FromPairs(PayloadPairs(q))));
    FromPairsIsInjective(PayloadPairs(p), PayloadPairs(q));
    DecodePublicValue(p, "");
    DecodePublicValue(q, "");
    SamePublicPairs(p, q);
    hide *;
  }

  lemma SamePublicPairs(p: Proposal, q: Proposal)
    requires ValidProposal(p) && ValidProposal(q) && PayloadPairs(p) == PayloadPairs(q)
    ensures PublicPairs(p, "") == PublicPairs(q, "")
  {
    hide ValidProposal, Names, PayloadValues;
    forall i | 0 <= i < 11 ensures PayloadValues(p)[i] == PayloadValues(q)[i] {
      assert PayloadPairs(p)[i].1 == PayloadPairs(q)[i].1;
    }
    assert PayloadValues(p) == PayloadValues(q);
  }

  lemma PayloadWellFormed(p: Proposal)
    requires ValidProposal(p)
    ensures WellFormed(Obj(FromPairs(PayloadPairs(p))))
  {
    var ps, qs := PayloadPairs(p), PublicPairs(p, "");
    PublicValue(p, "");
    WellFormedParts(qs);
    forall i | 0 <= i < 11 ensures WellFormed(ps[i].1) { assert ps[i] == qs[i]; }
    WellFormedPairs(ps);
  }

  lemma {:induction false} WellFormedParts(ps: seq<Pair>)
    requires WellFormedFields(FromPairs(ps))
    ensures forall i :: 0 <= i < |ps| ==> WellFormed(ps[i].1)
  {
    if ps != [] {
      WellFormedParts(ps[1..]);
      assert forall i :: 0 < i < |ps| ==> ps[i] == ps[1..][i - 1];
    }
  }
}
