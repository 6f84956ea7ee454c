/** The coordinator that turns a verified challenge into a durable decision, alone and under every
    interleaving with other callers, cancellation, expiry, crashes and restarts. */
module ApprovalDecision {
  import opened Text
  import opened ApprovalRecord
  import opened ApprovalStore
  import C = Challenge
  import H = ChallengeRuns
  import R = ApprovalRuns
  import A = ApprovalAnswers
  import Base64
  import ManifestText

  datatype Fault = Invalid | Begin | Verification | Decision

  /** What Complete returns. */
  datatype Decided = Decided(requestID: string, digest: string, state: State, actorID: string, credentialID: string)

  // ---- checks at the seams --------------------------------------------------------------------------

  predicate ValidIssued(b: C.Binding, q: C.Request) {
    b.challenge != "" && b.request == q && b.issuedAt != C.ZERO_NANOS / C.NANOS && b.issuedAt < b.expiresAt
  }

  predicate ValidVerified(v: C.Verified) {
    v.requestID != "" && v.digest != "" && v.operatorID != "" && IsDigest(v.credentialID)
  }

  function Target(d: C.Decision): State { if d.Deny? then Denied else Approved }

  predicate MatchesTransition(r: Record, v: C.Verified) {
    r.requestID == v.requestID && r.digest == v.digest && r.actorID == v.operatorID && r.state == Target(v.decision)
  }

  function RequestFor(r: Record, decision: C.Decision, operatorID: string, rpID: string, origin: string): C.Request {
    C.Request(r.requestID, r.digest, decision, operatorID, rpID, origin)
  }

  /** The challenge is for that record, still pending, and for that decision of that operator. */
  predicate BoundTo(b: C.Binding, r: Record, decision: C.Decision, operatorID: string, rpID: string, origin: string) {
    r.state.Pending? && b.request.requestID == r.requestID && b.request.digest == r.digest
    && b.request.decision == decision && b.request.operatorID == operatorID && b.request.rpID == rpID
    && b.request.origin == origin
  }

  /** The store can be asked now, and the record is pending and not overdue. */
  predicate CanBegin(m: Memory, id: string, now: int) {
    A.Serves(m, now) && id in m.records && m.records[id].state.Pending? && now < m.records[id].expiresAt
  }

  /** The result repeats the request: identifier, digest, operator, and the decision itself. */
  predicate Repeats(d: Decided, q: C.Request) {
    d.requestID == q.requestID && d.digest == q.digest && d.actorID == q.operatorID
    && match q.decision
       case Approve => d.state == Approved
       case Deny => d.state == Denied
       case Unknown(_) => false
  }

  /** The challenge can be taken and proved: it is pending and open at the first reading, assertion and
      credential have their lengths, and the second reading is readable after the first. */
  predicate Provable(m: C.Manager, challenge: string, assertion: string, credential: Option<string>, raw: int,
                     later: int) {
    !m.closed && C.Readable(m.lastNow, raw) && challenge in m.pending
    && raw / 1_000_000_000 < m.pending[challenge].expiresAt && 0 < |assertion| <= 65_536
    && credential.Some? && 0 < |credential.value| <= 1024 && C.Readable(raw, later)
  }

  /** The store can take the decision: the record is pending, not overdue, and the very one asked for. */
  predicate Decidable(m: Machine, q: C.Request, now: int) {
    A.Serves(m.mem, now) && A.HasRoom(m) && q.requestID in m.mem.records
    && q.requestID != "" && q.digest != "" && ValidScalar(q.operatorID, 128) && !q.decision.Unknown?
    && var r := m.mem.records[q.requestID];
       r.requestID == q.requestID && r.digest == q.digest && r.state.Pending? && now < r.expiresAt
  }

  /** The manager can issue now, after the first second of year 1. */
  predicate CanIssue(rules: C.Rules, m: C.Manager, raw: int, draws: seq<Option<Bytes32>>) {
    var open := C.OpenAt(m.pending, raw / 1_000_000_000);
    !m.closed && C.Readable(m.lastNow, raw) && raw / 1_000_000_000 > 31_622_400 && |open| < rules.maxPending
    && exists k :: 0 <= k < 4 && C.FirstFree(open, draws, k)
  }

  lemma ChallengeText(rules: C.Rules, m: C.Manager, q: C.Request, raw: int, draws: seq<Option<Bytes32>>)
    requires C.Issue(rules, m, q, raw, draws).1.Ok?
    ensures C.Issue(rules, m, q, raw, draws).1.value.challenge != ""
  {
    hide C.Issue, C.WellFormed, C.Readable, C.OpenAt, Base64.Encode;
    C.IssuedExactly(rules, m, q, raw, draws);
    var open := C.OpenAt(m.pending, raw / 1_000_000_000);
    var k :| 0 <= k < 4 && C.FirstFree(open, draws, k)
             && C.Issue(rules, m, q, raw, draws).1.value.challenge == Base64.Encode(draws[k].value, Base64.RawURL);
    Base64.RawLength(draws[k].value);
  }

  /** The record a Get for Begin must return: pending. */
  function PendingRecord(reply: Result<Reply, Failure>): Option<Record> {
    match reply
    case Ok(ARecord(r)) => if r.state.Pending? then Some(r) else None
    case _ => None
  }

  function DecisionOp(v: C.Verified): Op { Transition(v.requestID, v.digest, Target(v.decision), v.operatorID) }

  /** The result of a durable transition made for v. */
  function Decide(reply: Result<Reply, Failure>, v: C.Verified): Option<Decided> {
    match reply
    case Ok(ARecord(r)) =>
      if MatchesTransition(r, v) then Some(Decided(r.requestID, r.digest, r.state, r.actorID, v.credentialID)) else None
    case _ => None
  }

  /** A credential is known by its digest under the credentials' own domain. */
  lemma CredentialExactly(hash: Hasher, credential: string)
    ensures ManifestText.DigestOf(C.CredentialID(hash, credential),
      hash.sum("dev-agent-harness/passkey-credential/v1\0" + credential))
  {
    ManifestText.LabelledDigest(hash, "dev-agent-harness/passkey-credential/v1\0" + credential);
    hide ManifestText.DigestOf;
  }

  /** A whole Complete in which nobody else uses the store or the manager meanwhile. */
  function Completed(hash: Hasher, rules: Rules, machine: Machine, m: C.Manager, challenge: string, assertion: string,
                     credential: Option<string>, raw: int, later: int, reading: int, fault: ApprovalStore.Fault)
    : (Machine, C.Manager, Result<Decided, Fault>)
  {
    var (m1, reserved) := C.Reserve(m, challenge, raw);
    if reserved.Err? || !C.GoodAssertion(assertion) || credential.None? || !C.GoodCredential(credential.value) then
      (machine, m1, Err(Verification))
    else
      var (m2, verified) := C.Finish(m1, reserved.value, C.CredentialID(hash, credential.value), later);
      if verified.Err? || !ValidVerified(verified.value) || verified.value.decision.Unknown? then
        (machine, m2, Err(Verification))
      else
        var (machine', reply) := Apply(hash, rules, machine, DecisionOp(verified.value), reading, fault);
        (machine', m2, match Decide(reply, verified.value) case Some(d) => Ok(d) case None => Err(Decision))
  }

  /** Complete succeeds, without faults, if and only if the challenge can be proved and the decision still be
      taken; the result then repeats the request, with the credential that was proved. */
  lemma CompletedExactly(hash: Hasher, rules: Rules, machine: Machine, m: C.Manager, challenge: string,
                         assertion: string, credential: Option<string>, raw: int, later: int, reading: int,
                         fault: ApprovalStore.Fault)
    ensures var r :=
      Completed(hash, rules, machine, m, challenge, assertion, credential, raw, later, reading, fault).2;
      (r.Ok? ==>
         challenge in m.pending && credential.Some? && Repeats(r.value, m.pending[challenge].request)
         && r.value.credentialID == C.CredentialID(hash, credential.value))
      && (fault.NoFault? ==>
            (r.Ok? <==> Provable(m, challenge, assertion, credential, raw, later)
                        && Decidable(machine, m.pending[challenge].request, reading)))
  {
    hide Apply, C.Reserve, C.Finish, C.CredentialID, C.Readable, A.Serves, A.HasRoom, A.Committed;
    C.TakenExactly(m, challenge, raw);
    var (m1, reserved) := C.Reserve(m, challenge, raw);
    if reserved.Ok? && credential.Some? {
      var b, id := m.pending[challenge], C.CredentialID(hash, credential.value);
      C.FinishedExactly(m1, b, id, later);
      var v := C.Finish(m1, b, id, later).1;
      if v.Ok? && !v.value.decision.Unknown? {
        DecisionExactly(hash, rules, machine, v.value, reading, fault);
      }
    }
  }

  lemma DecisionExactly(hash: Hasher, rules: Rules, machine: Machine, v: C.Verified, reading: int,
                        fault: ApprovalStore.Fault)
    requires !v.decision.Unknown?
    ensures var d := Decide(Apply(hash, rules, machine, DecisionOp(v), reading, fault).1, v);
      (d.Some? ==>
         d.value == Decided(v.requestID, v.digest, if v.decision.Deny? then Denied else Approved, v.operatorID,
                            v.credentialID))
      && (fault.NoFault? ==>
            (d.Some? <==> A.Serves(machine.mem, reading) && A.HasRoom(machine) && v.requestID in machine.mem.records
                          && var r := machine.mem.records[v.requestID];
                             r.requestID == v.requestID && r.digest == v.digest && r.state.Pending?
                             && reading < r.expiresAt && ValidScalar(v.operatorID, 128)))
  {
    hide Apply, A.Serves, A.HasRoom, A.Committed, ValidScalar;
    A.TransitionAnswers(hash, rules, machine, v.requestID, v.digest, if v.decision.Deny? then Denied else Approved,
      v.operatorID, reading, fault);
  }

  // ---- the coordinator as a class ----------------------------------------------------------------------

  class Coordinator {
    const store: Store
    const manager: C.ChallengeManager

    constructor (store: Store, manager: C.ChallengeManager)
      ensures this.store == store && this.manager == manager
    {
      this.store, this.manager := store, manager;
    }

    method BeginDecision(requestID: string, decision: C.Decision, operatorID: string, rpID: string, origin: string,
                         reading: int, fault: ApprovalStore.Fault, raw: int, draws: seq<Option<Bytes32>>)
      returns (r: Result<C.Binding, Fault>)
      modifies store, manager
      ensures var (machine, reply) :=
        Apply(store.hash, store.rules, old(store.Value()), Get(requestID), reading, fault);
        store.Value() == machine
        && match PendingRecord(reply)
           case None => manager.Value() == old(manager.Value()) && r == Err(Begin)
           case Some(record) =>
             var q := RequestFor(record, decision, operatorID, rpID, origin);
             var (m, issued) := C.Issue(manager.rules, old(manager.Value()), q, raw, draws);
             manager.Value() == m && r == if issued.Ok? && ValidIssued(issued.value, q) then Ok(issued.value)
               else Err(Begin)
      ensures r.Ok? ==>
        requestID in store.records && BoundTo(r.value, store.records[requestID], decision, operatorID, rpID, origin)
        && r.value.issuedAt == raw / 1_000_000_000 && r.value.expiresAt == r.value.issuedAt + manager.rules.ttl
      ensures fault.NoFault? && manager.rules.ttl > 0 ==>
        (r.Ok? <==> CanBegin(old(store.Value()).mem, requestID, reading)
                    && C.WellFormed(C.Request(old(store.records)[requestID].requestID,
                                                old(store.records)[requestID].digest,
                                                decision, operatorID, rpID, origin))
                    && CanIssue(manager.rules, old(manager.Value()), raw, draws))
    {
      hide Apply, C.Issue, C.WellFormed, A.Readable, C.FirstFree, Base64.Encode, C.OpenAt;
      A.GetAnswers(store.hash, store.rules, store.Value(), requestID, reading, fault);
      var record := store.GetRecord(requestID, reading, fault);
      if record.Err? || !record.value.state.Pending? { return Err(Begin); }
      var q := RequestFor(record.value, decision, operatorID, rpID, origin);
      C.IssuedExactly(manager.rules, manager.Value(), q, raw, draws);
      var issued := manager.IssueChallenge(q, raw, draws);
      if issued.Ok? { ChallengeText(manager.rules, old(manager.Value()), q, raw, draws); }
      if issued.Err? || !ValidIssued(issued.value, q) { return Err(Begin); }
      r := Ok(issued.value);
    }

    /** `credential` is what the verifier returns, None if it fails or panics; this is the run in
        which nobody else uses the store or the manager meanwhile. */
    method Complete(challenge: string, assertion: string, credential: Option<string>, raw: int, later: int,
                    reading: int, fault: ApprovalStore.Fault)
      returns (r: Result<Decided, Fault>)
      modifies store, manager
      ensures (store.Value(), manager.Value(), r)
           == Completed(store.hash, store.rules, old(store.Value()), old(manager.Value()), challenge, assertion,
                        credential, raw, later, reading, fault)
      ensures fault.NoFault? ==>
        (r.Ok? <==> Provable(old(manager.Value()), challenge, assertion, credential, raw, later)
                    && Decidable(old(store.Value()), old(manager.pending)[challenge].request, reading))
      ensures r.Ok? ==>
        challenge in old(manager.pending) && credential.Some?
        && Repeats(r.value, old(manager.pending)[challenge].request)
        && r.value.credentialID == C.CredentialID(store.hash, credential.value)
    {
      hide Apply, C.Reserve, C.Finish, C.CredentialID, ValidVerified, Provable, Decidable, Repeats, C.GoodAssertion,
        C.GoodCredential;
      CompletedExactly(store.hash, store.rules, store.Value(), manager.Value(), challenge, assertion, credential, raw,
        later, reading, fault);
      var reserved := manager.ReserveChallenge(challenge, raw);
      if reserved.Err? || !C.GoodAssertion(assertion) || credential.None? || !C.GoodCredential(credential.value) {
        return Err(Verification);
      }
      var verified := manager.FinishChallenge(reserved.value, C.CredentialID(store.hash, credential.value), later);
      if verified.Err? || !ValidVerified(verified.value) { return Err(Verification); }
      var v := verified.value;
      var record: Result<Record, Failure>;
      match v.decision {
        case Approve => record := store.TransitionRecord(v.requestID, v.digest, Approved, v.operatorID, reading, fault);
        case Deny => record := store.TransitionRecord(v.requestID, v.digest, Denied, v.operatorID, reading, fault);
        case Unknown(_) => return Err(Verification);
      }
      if record.Err? || !MatchesTransition(record.value, v) { return Err(Decision); }
      r := Ok(Decided(record.value.requestID, record.value.digest, record.value.state, record.value.actorID,
                      v.credentialID));
    }
  }

  // ---- every interleaving ----------------------------------------------------------------------------------

  /** A consumed challenge on its way to the store. */
  datatype Waiting = Waiting(binding: C.Binding, verified: C.Verified)

  /** A returned result, with the issuance it consumed and the record the store answered with. */
  datatype Entry = Entry(binding: C.Binding, record: Record, result: Decided)

  datatype Joint = Joint(world: R.World, challenges: H.System, waiting: map<nat, Waiting>, log: seq<Entry>)

  datatype Event =
    | StoreEvent(e: R.Event)
    | BeginEvent(requestID: string, decision: C.Decision, operatorID: string, rpID: string, origin: string,
                 reading: int, fault: ApprovalStore.Fault, raw: int, draws: seq<Option<Bytes32>>)
    | ChallengeEvent(c: H.Event)
    | FinishEvent(tx: nat, raw: int)
    | DecideEvent(tx: nat, reading: int, fault: ApprovalStore.Fault)
    | Restart

  function CallOn(hash: Hasher, rules: Rules, w: R.World, op: Op, reading: int,
                  fault: ApprovalStore.Fault): (R.World, Result<Reply, Failure>) {
    if w.mem.None? then (w, Err(Closed))
    else
      var (m, reply) := Apply(hash, rules, Machine(w.mem.value, w.disk), op, reading, fault);
      (R.World(Some(m.mem), m.disk), reply)
  }

  function Step(hash: Hasher, rules: Rules, limits: C.Rules, j: Joint, e: Event): Joint {
    match e
    case StoreEvent(s) => j.(world := R.Step(hash, rules, j.world, s))
    case BeginEvent(id, decision, operatorID, rpID, origin, reading, fault, raw, draws) =>
      var (w, reply) := CallOn(hash, rules, j.world, Get(id), reading, fault);
      (match PendingRecord(reply)
       case None => j.(world := w)
       case Some(r) =>
         j.(world := w, challenges :=
           H.Step(limits, j.challenges, H.IssueOne(RequestFor(r, decision, operatorID, rpID, origin), raw, draws))))
    case ChallengeEvent(c) => if c.FinishOne? then j else j.(challenges := H.Step(limits, j.challenges, c))
    case FinishEvent(tx, raw) =>
      if tx in j.waiting || tx !in j.challenges.flights || !j.challenges.flights[tx].phase.Proved?
         || j.challenges.flights[tx].issue >= |j.challenges.issued| then j
      else
        var flight := j.challenges.flights[tx];
        var b := j.challenges.issued[flight.issue];
        var id := C.CredentialID(hash, flight.phase.credential);
        var r := C.Finish(j.challenges.m, b, id, raw).1;
        j.(challenges := H.Step(limits, j.challenges, H.FinishOne(tx, id, raw)),
           waiting := if r.Ok? && ValidVerified(r.value) && !r.value.decision.Unknown? then
             j.waiting[tx := Waiting(b, r.value)] else j.waiting)
    case DecideEvent(tx, reading, fault) =>
      if tx !in j.waiting then j
      else
        var v := j.waiting[tx].verified;
        var (w, reply) := CallOn(hash, rules, j.world, DecisionOp(v), reading, fault);
        j.(world := w, waiting := j.waiting - {tx},
           log := if Decide(reply, v).Some? then
             j.log + [Entry(j.waiting[tx].binding, reply.value.r, Decide(reply, v).value)] else j.log)
    case Restart => j.(challenges := H.Start(), waiting := map[])
  }

  /** The result says what the issuance was bound to, and what the store recorded. */
  predicate Faithful(e: Entry) {
    var q := e.binding.request;
    e.result.requestID == q.requestID == e.record.requestID && e.result.digest == q.digest == e.record.digest
    && e.result.actorID == q.operatorID == e.record.actorID && !q.decision.Unknown?
    && e.result.state == Target(q.decision) == e.record.state
  }

  /** The snapshot holds the decision, or the later life of its record. */
  predicate Holds(s: R.Snap, r: Record) { r.requestID in s.records && Evolved(r, s.records[r.requestID]) }

  predicate LogKept(log: seq<Entry>, base: R.Snap) {
    (forall k :: 0 <= k < |log| ==> Faithful(log[k]) && Holds(base, log[k].record))
    && forall a, b :: 0 <= a < b < |log| ==> log[a].result.requestID != log[b].result.requestID
  }

  predicate WaitingKept(waiting: map<nat, Waiting>) {
    forall tx :: tx in waiting ==>
      H.Carries(waiting[tx].verified, waiting[tx].binding.request) && !waiting[tx].binding.request.decision.Unknown?
  }

  /** The oldest state a power failure could bring back already holds every decision ever returned. */
  ghost predicate Kept(hash: Hasher, rules: Rules, limits: C.Rules, j: Joint, snaps: seq<R.Snap>) {
    R.Kept(hash, rules, j.world, snaps) && H.Kept(limits, j.challenges) && WaitingKept(j.waiting) && snaps != []
      && LogKept(j.log, snaps[0])
  }

  lemma EvolvedOn(a: Record, b: Record, c: Record)
    requires Evolved(a, b) && Evolved(b, c)
    ensures Evolved(a, c)
  {
  }

  lemma HoldsOn(s: R.Snap, t: R.Snap, r: Record)
    requires Holds(s, r) && R.Follows(s, t)
    ensures Holds(t, r)
  {
    hide Evolved;
    EvolvedOn(r, s.records[r.requestID], t.records[r.requestID]);
  }

  lemma LogOn(log: seq<Entry>, snaps: seq<R.Snap>, after: seq<R.Snap>)
    requires snaps != [] && LogKept(log, snaps[0]) && R.Onward(snaps, after)
    ensures LogKept(log, after[0])
  {
    hide Holds, R.Follows, Faithful;
    forall k | 0 <= k < |log| ensures Holds(after[0], log[k].record) { HoldsOn(snaps[0], after[0], log[k].record); }
  }

  lemma CallOnKeeps(hash: Hasher, rules: Rules, w: R.World, snaps: seq<R.Snap>, op: Op, reading: int,
                    fault: ApprovalStore.Fault)
    returns (after: seq<R.Snap>)
    requires R.Kept(hash, rules, w, snaps)
    ensures R.Onward(snaps, after) && R.Kept(hash, rules, CallOn(hash, rules, w, op, reading, fault).0, after)
  {
    hide Apply, R.Kept;
    if w.mem.None? {
      R.KeptParts(hash, rules, w, snaps);
      R.FollowsItself(snaps[0]);
      after := snaps;
    } else {
      assert w == R.World(Some(w.mem.value), w.disk);
      after := R.CallKeeps(hash, rules, Machine(w.mem.value, w.disk), snaps, op, reading, fault);
    }
  }

  /** A decided record that the base holds is not pending in memory, so it cannot be decided again. */
  lemma DecidedOnce(hash: Hasher, rules: Rules, w: R.World, snaps: seq<R.Snap>, r: Record, v: C.Verified, reading: int,
                    fault: ApprovalStore.Fault)
    requires R.Kept(hash, rules, w, snaps) && snaps != [] && Holds(snaps[0], r)
      && (r.state.Approved? || r.state.Denied?) && r.requestID == v.requestID
    ensures Decide(CallOn(hash, rules, w, DecisionOp(v), reading, fault).1, v).None?
  {
    hide Apply, R.Kept, Evolved, R.Stored;
    var reply := CallOn(hash, rules, w, DecisionOp(v), reading, fault).1;
    if w.mem.Some? && Decide(reply, v).Some? {
      var m := Machine(w.mem.value, w.disk);
      R.TransitionAnswer(hash, rules, m, v.requestID, v.digest, Target(v.decision), v.operatorID, reading, fault,
        reply.value.r);
      R.KeptParts(hash, rules, w, snaps);
      R.FirstToLast(snaps);
      HoldsOn(snaps[0], R.Last(snaps), r);
      NeverPendingAgain(r, R.Last(snaps).records[r.requestID]);
    }
  }

  lemma NeverPendingAgain(r: Record, s: Record)
    requires Evolved(r, s) && (r.state.Approved? || r.state.Denied?)
    ensures !s.state.Pending?
  {
  }

  lemma DecideKeeps(hash: Hasher, rules: Rules, j: Joint, snaps: seq<R.Snap>, tx: nat, reading: int,
                    fault: ApprovalStore.Fault)
    returns (after: seq<R.Snap>)
    requires R.Kept(hash, rules, j.world, snaps) && WaitingKept(j.waiting) && snaps != [] && LogKept(j.log, snaps[0])
      && tx in j.waiting
    ensures var v := j.waiting[tx].verified;
      var (w, reply) := CallOn(hash, rules, j.world, DecisionOp(v), reading, fault);
      R.Onward(snaps, after) && R.Kept(hash, rules, w, after)
      && (Decide(reply, v).Some? ==>
            LogKept(j.log + [Entry(j.waiting[tx].binding, reply.value.r, Decide(reply, v).value)], after[0])
            && w.disk.undone == [] && |after| == 1 && j.world.mem.Some?)
  {
    hide Apply, R.Kept, R.Stored, Evolved, R.Follows, R.Chain, R.Written, R.Admitted, R.NewSnap;
    var v := j.waiting[tx].verified;
    var (w, reply) := CallOn(hash, rules, j.world, DecisionOp(v), reading, fault);
    if Decide(reply, v).None? || j.world.mem.None? {
      after := CallOnKeeps(hash, rules, j.world, snaps, DecisionOp(v), reading, fault);
      return;
    }
    var m, r := Machine(j.world.mem.value, j.world.disk), reply.value.r;
    assert j.world == R.World(Some(m.mem), m.disk);
    after := R.DecisionSurvives(hash, rules, m, snaps, v.requestID, v.digest, Target(v.decision), v.operatorID,
                               reading, fault, r, []);
    DecisionIsLast(hash, rules, m, snaps, v, reading, fault, r);
    after := [R.NewSnap(hash, rules, R.Last(snaps), DecisionOp(v), reading)];
    forall k | 0 <= k < |j.log| ensures j.log[k].result.requestID != r.requestID {
      if j.log[k].result.requestID == r.requestID {
        DecidedOnce(hash, rules, j.world, snaps, j.log[k].record, v, reading, fault);
      }
    }
    LogOn(j.log, snaps, after);
  }

  lemma EvolvedItself(r: Record)
    ensures Evolved(r, r)
  {
  }

  /** After a successful decision the one snapshot on disk holds it. */
  lemma DecisionIsLast(hash: Hasher, rules: Rules, m: Machine, snaps: seq<R.Snap>, v: C.Verified, reading: int,
                       fault: ApprovalStore.Fault, r: Record)
    requires R.Kept(hash, rules, R.World(Some(m.mem), m.disk), snaps)
    requires Apply(hash, rules, m, DecisionOp(v), reading, fault).1 == Ok(ARecord(r)) && MatchesTransition(r, v)
    ensures var m' := Apply(hash, rules, m, DecisionOp(v), reading, fault).0;
      var s := R.NewSnap(hash, rules, R.Last(snaps), DecisionOp(v), reading);
      R.Kept(hash, rules, R.World(Some(m'.mem), m'.disk), [s]) && Holds(s, r) && R.Onward(snaps, [s])
        && m'.disk.undone == []
  {
    hide Apply, R.Kept, R.Stored, R.Chain, R.Written, R.Admitted, GoodPlan, R.Follows, GoodRecords, SameRequest,
      Evolved, TransitionPlan;
    EvolvedItself(r);
    var op := DecisionOp(v);
    R.TransitionAnswer(hash, rules, m, v.requestID, v.digest, Target(v.decision), v.operatorID, reading, fault, r);
    R.KeptParts(hash, rules, R.World(Some(m.mem), m.disk), snaps);
    R.StoredIsGood(hash, rules, m.disk.state, R.Last(snaps));
    R.AdmittedIsLive(m.mem, op, reading);
    R.SubjectID(hash, rules, m.mem.records, R.Last(snaps).observed, v.requestID);
    R.AcknowledgedIsDurable(hash, rules, m, snaps, op, reading, fault);
    R.ApplySucceeded(hash, rules, m, op, reading, fault);
  }

  lemma RequestParts(q: C.Request)
    requires C.ValidRequest(q)
    ensures q.requestID != "" && q.digest != "" && q.operatorID != "" && !q.decision.Unknown?
  {
    hide C.ValidRPID, C.ValidOrigin;
  }

  lemma FinishKeepsWaiting(hash: Hasher, limits: C.Rules, j: Joint, tx: nat, raw: int)
    requires H.Kept(limits, j.challenges) && WaitingKept(j.waiting) && tx in j.challenges.flights
      && j.challenges.flights[tx].phase.Proved?
    requires j.challenges.flights[tx].issue < |j.challenges.issued|
    ensures var b := j.challenges.issued[j.challenges.flights[tx].issue];
      var r := C.Finish(j.challenges.m, b, C.CredentialID(hash, j.challenges.flights[tx].phase.credential), raw).1;
      r.Ok? ==> WaitingKept(j.waiting[tx := Waiting(b, r.value)]) && ValidVerified(r.value)
  {
    hide C.ValidRequest, C.CredentialID, C.Trusted, H.PendingKept, H.FlightsKept, H.ResultsKept;
    var i := j.challenges.flights[tx].issue;
    H.BoundRequestValid(limits, j.challenges, i);
    RequestParts(j.challenges.issued[i].request);
  }

  /** Whatever happens in whatever order, every step keeps all of it. */
  lemma StepKeeps(hash: Hasher, rules: Rules, limits: C.Rules, j: Joint, snaps: seq<R.Snap>, e: Event)
    returns (after: seq<R.Snap>)
    requires Kept(hash, rules, limits, j, snaps)
    ensures R.Onward(snaps, after) && Kept(hash, rules, limits, Step(hash, rules, limits, j, e), after)
  {
    hide R.Kept, R.Step, H.Kept, H.Step, H.Start, C.Finish, C.CredentialID, CallOn, LogKept, R.Follows, Decide,
      ValidVerified, PendingRecord;
    R.FollowsItself(snaps[0]);
    after := snaps;
    match e
    case StoreEvent(s) =>
      after := R.StepKeeps(hash, rules, j.world, snaps, s);
      LogOn(j.log, snaps, after);
    case BeginEvent(id, decision, operatorID, rpID, origin, reading, fault, raw, draws) =>
      after := CallOnKeeps(hash, rules, j.world, snaps, Get(id), reading, fault);
      LogOn(j.log, snaps, after);
      var reply := CallOn(hash, rules, j.world, Get(id), reading, fault).1;
      if PendingRecord(reply).Some? {
        H.StepKeeps(limits, j.challenges,
          H.IssueOne(RequestFor(PendingRecord(reply).value, decision, operatorID, rpID, origin), raw, draws));
      }
    case ChallengeEvent(c) => H.StepKeeps(limits, j.challenges, c);
    case FinishEvent(tx, raw) =>
      if tx in j.challenges.flights && j.challenges.flights[tx].phase.Proved?
        && j.challenges.flights[tx].issue < |j.challenges.issued| {
        FinishKeepsWaiting(hash, limits, j, tx, raw);
        H.StepKeeps(limits, j.challenges,
          H.FinishOne(tx, C.CredentialID(hash, j.challenges.flights[tx].phase.credential), raw));
      }
    case DecideEvent(tx, reading, fault) =>
      if tx in j.waiting {
        after := DecideKeeps(hash, rules, j, snaps, tx, reading, fault);
        LogOn(j.log, snaps, after);
      }
    case Restart => H.StartKept(limits);
  }

  function Run(hash: Hasher, rules: Rules, limits: C.Rules, j: Joint, events: seq<Event>): Joint
    decreases |events|
  {
    if events == [] then j else Run(hash, rules, limits, Step(hash, rules, limits, j, events[0]), events[1..])
  }

  /** Over every run: at most one result per request is ever returned; each carries exactly what its
      issuance was bound to; and it is held by every state the disk could ever go back to. */
  lemma {:induction false} RunKeeps(hash: Hasher, rules: Rules, limits: C.Rules, j: Joint, snaps: seq<R.Snap>,
                                    events: seq<Event>)
    returns (after: seq<R.Snap>)
    requires Kept(hash, rules, limits, j, snaps)
    ensures R.Onward(snaps, after) && Kept(hash, rules, limits, Run(hash, rules, limits, j, events), after)
    decreases |events|
  {
    hide Step, R.Kept, H.Kept, LogKept, WaitingKept, R.Follows;
    if events == [] {
      R.FollowsItself(snaps[0]);
      after := snaps;
    } else {
      var between := StepKeeps(hash, rules, limits, j, snaps, events[0]);
      after := RunKeeps(hash, rules, limits, Step(hash, rules, limits, j, events[0]), between, events[1..]);
      R.FollowsTransitive(snaps[0], between[0], after[0]);
    }
  }

  lemma AtMostOneResult(hash: Hasher, rules: Rules, limits: C.Rules, events: seq<Event>, a: nat, b: nat)
    requires var log := Run(hash, rules, limits, Joint(R.World(None, R.EmptyDisk()), H.Start(), map[], []), events).log;
      a < |log| && b < |log| && log[a].result.requestID == log[b].result.requestID
    ensures a == b
    ensures Faithful(Run(hash, rules, limits, Joint(R.World(None, R.EmptyDisk()), H.Start(), map[], []), events).log[a])
  {
    hide Run, R.Kept, H.Kept, Faithful, Holds;
    var start := Joint(R.World(None, R.EmptyDisk()), H.Start(), map[], []);
    R.EmptyIsKept(hash, rules);
    H.StartKept(limits);
    var after := RunKeeps(hash, rules, limits, start, [R.Blank()], events);
  }

  // ---- where a result comes from -----------------------------------------------------------------------------

  function Empty(): Joint { Joint(R.World(None, R.EmptyDisk()), H.Start(), map[], []) }

  function After(hash: Hasher, rules: Rules, limits: C.Rules, events: seq<Event>): Joint {
    Run(hash, rules, limits, Empty(), events)
  }

  /** Event e, met in state j, issues challenge b: Begin for the record held under the given identifier,
      pending and not overdue, and for the decision and operator it was given; anyone else for a request of
      their own. Either way it lasts the configured lifetime. */
  predicate Asks(limits: C.Rules, j: Joint, e: Event, b: C.Binding) {
    match e
    case BeginEvent(id, decision, operatorID, rpID, origin, reading, _, raw, _) =>
      j.world.mem.Some? && id in j.world.mem.value.records
      && BoundTo(b, j.world.mem.value.records[id], decision, operatorID, rpID, origin) && b.request.requestID == id
      && reading < j.world.mem.value.records[id].expiresAt
      && b.issuedAt == raw / 1_000_000_000 && b.expiresAt == raw / 1_000_000_000 + limits.ttl
    case ChallengeEvent(IssueOne(q, raw, _)) =>
      b.request == q && b.issuedAt == raw / 1_000_000_000 && b.expiresAt == raw / 1_000_000_000 + limits.ttl
    case _ => false
  }

  /** Consumer tx takes the challenge of b within its lifetime. */
  predicate Takes(limits: C.Rules, e: Event, tx: nat, b: C.Binding) {
    e.ChallengeEvent? && e.c.ReserveOne? && e.c.tx == tx && e.c.challenge == b.challenge
    && e.c.raw / 1_000_000_000 < b.issuedAt + limits.ttl
  }

  /** The verifier of consumer tx returns the credential of that identifier. */
  predicate Proves(hash: Hasher, e: Event, tx: nat, credentialID: string) {
    e.ChallengeEvent? && e.c.VerifierReturns? && e.c.tx == tx && e.c.credential.Some?
    && C.CredentialID(hash, e.c.credential.value) == credentialID
  }

  ghost predicate Asked(hash: Hasher, rules: Rules, limits: C.Rules, events: seq<Event>, b: C.Binding) {
    exists i :: 0 <= i < |events| && Asks(limits, After(hash, rules, limits, events[..i]), events[i], b)
  }

  ghost predicate Taken(limits: C.Rules, events: seq<Event>, tx: nat, b: C.Binding) {
    exists i :: 0 <= i < |events| && Takes(limits, events[i], tx, b)
  }

  ghost predicate Proved(hash: Hasher, events: seq<Event>, tx: nat, credentialID: string) {
    exists i :: 0 <= i < |events| && Proves(hash, events[i], tx, credentialID)
  }

  /** The whole way of one result: asked for, taken in time, proved by its credential. */
  ghost predicate Earned(hash: Hasher, rules: Rules, limits: C.Rules, events: seq<Event>, tx: nat, b: C.Binding,
                         credentialID: string) {
    Asked(hash, rules, limits, events, b) && Taken(limits, events, tx, b) && Proved(hash, events, tx, credentialID)
  }

  /** Earned by one consumer. */
  ghost predicate ByOne(hash: Hasher, rules: Rules, limits: C.Rules, events: seq<Event>, b: C.Binding,
                        credentialID: string) {
    exists tx: nat :: Earned(hash, rules, limits, events, tx, b, credentialID)
  }

  ghost predicate FlightsEarned(hash: Hasher, limits: C.Rules, events: seq<Event>, s: H.System) {
    forall tx :: tx in s.flights ==>
      s.flights[tx].issue < |s.issued| && Taken(limits, events, tx, s.issued[s.flights[tx].issue])
      && (s.flights[tx].phase.Proved? ==>
            Proved(hash, events, tx, C.CredentialID(hash, s.flights[tx].phase.credential)))
  }

  ghost predicate IssuedAsked(hash: Hasher, rules: Rules, limits: C.Rules, events: seq<Event>, issued: seq<C.Binding>) {
    forall i :: 0 <= i < |issued| ==> Asked(hash, rules, limits, events, issued[i])
  }

  ghost predicate WaitingEarned(hash: Hasher, rules: Rules, limits: C.Rules, events: seq<Event>,
                                waiting: map<nat, Waiting>) {
    forall tx :: tx in waiting ==>
      Earned(hash, rules, limits, events, tx, waiting[tx].binding, waiting[tx].verified.credentialID)
  }

  ghost predicate LogEarned(hash: Hasher, rules: Rules, limits: C.Rules, events: seq<Event>, log: seq<Entry>) {
    forall k :: 0 <= k < |log| ==> ByOne(hash, rules, limits, events, log[k].binding, log[k].result.credentialID)
  }

  ghost predicate AllEarned(hash: Hasher, rules: Rules, limits: C.Rules, events: seq<Event>, j: Joint) {
    IssuedAsked(hash, rules, limits, events, j.challenges.issued) && FlightsEarned(hash, limits, events, j.challenges)
    && WaitingEarned(hash, rules, limits, events, j.waiting) && LogEarned(hash, rules, limits, events, j.log)
  }

  lemma {:induction false} RunJoined(hash: Hasher, rules: Rules, limits: C.Rules, j: Joint, a: seq<Event>, e: Event)
    ensures Run(hash, rules, limits, j, a + [e]) == Step(hash, rules, limits, Run(hash, rules, limits, j, a), e)
    decreases |a|
  {
    hide Step;
    if a == [] {
      assert a + [e] == [e] && [e][1..] == [];
      assert Run(hash, rules, limits, Step(hash, rules, limits, j, e), []) == Step(hash, rules, limits, j, e);
    } else {
      assert (a + [e])[0] == a[0] && (a + [e])[1..] == a[1..] + [e];
      RunJoined(hash, rules, limits, Step(hash, rules, limits, j, a[0]), a[1..], e);
    }
  }

  lemma AskedStays(hash: Hasher, rules: Rules, limits: C.Rules, events: seq<Event>, e: Event, b: C.Binding)
    ensures Asked(hash, rules, limits, events, b) ==> Asked(hash, rules, limits, events + [e], b)
    ensures Asks(limits, After(hash, rules, limits, events), e, b) ==> Asked(hash, rules, limits, events + [e], b)
  {
    hide Asks, After;
    var more := events + [e];
    assert more[..|events|] == events && more[|events|] == e;
    if Asked(hash, rules, limits, events, b) {
      var i :| 0 <= i < |events| && Asks(limits, After(hash, rules, limits, events[..i]), events[i], b);
      assert more[..i] == events[..i] && more[i] == events[i];
    }
  }

  lemma TakenStays(limits: C.Rules, events: seq<Event>, e: Event, tx: nat, b: C.Binding)
    ensures Taken(limits, events, tx, b) || Takes(limits, e, tx, b) ==> Taken(limits, events + [e], tx, b)
  {
    hide Takes;
    var more := events + [e];
    if Takes(limits, e, tx, b) { assert Takes(limits, more[|events|], tx, b); }
    if Taken(limits, events, tx, b) {
      var i :| 0 <= i < |events| && Takes(limits, events[i], tx, b);
      assert more[i] == events[i];
    }
  }

  lemma ProvedStays(hash: Hasher, events: seq<Event>, e: Event, tx: nat, id: string)
    ensures Proved(hash, events, tx, id) || Proves(hash, e, tx, id) ==> Proved(hash, events + [e], tx, id)
  {
    hide Proves;
    var more := events + [e];
    if Proves(hash, e, tx, id) { assert Proves(hash, more[|events|], tx, id); }
    if Proved(hash, events, tx, id) {
      var i :| 0 <= i < |events| && Proves(hash, events[i], tx, id);
      assert more[i] == events[i];
    }
  }

  lemma IssuedStay(hash: Hasher, rules: Rules, limits: C.Rules, events: seq<Event>, e: Event, issued: seq<C.Binding>)
    requires IssuedAsked(hash, rules, limits, events, issued)
    ensures IssuedAsked(hash, rules, limits, events + [e], issued)
  {
    hide Asked;
    forall i | 0 <= i < |issued| ensures Asked(hash, rules, limits, events + [e], issued[i]) {
      AskedStays(hash, rules, limits, events, e, issued[i]);
    }
  }

  lemma FlightsStay(hash: Hasher, limits: C.Rules, events: seq<Event>, e: Event, s: H.System)
    requires FlightsEarned(hash, limits, events, s)
    ensures FlightsEarned(hash, limits, events + [e], s)
  {
    hide Taken, Proved, C.CredentialID;
    forall tx | tx in s.flights
      ensures Taken(limits, events + [e], tx, s.issued[s.flights[tx].issue])
      ensures s.flights[tx].phase.Proved? ==>
                Proved(hash, events + [e], tx, C.CredentialID(hash, s.flights[tx].phase.credential))
    {
      TakenStays(limits, events, e, tx, s.issued[s.flights[tx].issue]);
      if s.flights[tx].phase.Proved? {
        ProvedStays(hash, events, e, tx, C.CredentialID(hash, s.flights[tx].phase.credential));
      }
    }
  }

  lemma EarnedStays(hash: Hasher, rules: Rules, limits: C.Rules, events: seq<Event>, e: Event, tx: nat, b: C.Binding,
                    id: string)
    requires Earned(hash, rules, limits, events, tx, b, id)
    ensures Earned(hash, rules, limits, events + [e], tx, b, id)
  {
    hide Asked, Taken, Proved;
    AskedStays(hash, rules, limits, events, e, b);
    TakenStays(limits, events, e, tx, b);
    ProvedStays(hash, events, e, tx, id);
  }

  lemma WaitingStay(hash: Hasher, rules: Rules, limits: C.Rules, events: seq<Event>, e: Event,
                    waiting: map<nat, Waiting>, log: seq<Entry>)
    requires WaitingEarned(hash, rules, limits, events, waiting) && LogEarned(hash, rules, limits, events, log)
    ensures WaitingEarned(hash, rules, limits, events + [e], waiting)
      && LogEarned(hash, rules, limits, events + [e], log)
  {
    hide Earned;
    forall tx | tx in waiting
      ensures Earned(hash, rules, limits, events + [e], tx, waiting[tx].binding, waiting[tx].verified.credentialID)
    {
      EarnedStays(hash, rules, limits, events, e, tx, waiting[tx].binding, waiting[tx].verified.credentialID);
    }
    forall k | 0 <= k < |log|
      ensures ByOne(hash, rules, limits, events + [e], log[k].binding, log[k].result.credentialID)
    {
      assert ByOne(hash, rules, limits, events, log[k].binding, log[k].result.credentialID);
      var tx: nat :| Earned(hash, rules, limits, events, tx, log[k].binding, log[k].result.credentialID);
      EarnedStays(hash, rules, limits, events, e, tx, log[k].binding, log[k].result.credentialID);
    }
  }

  /** What one event issues to the manager's history: nothing, or one challenge that was asked for. */
  predicate IssuesOne(limits: C.Rules, j: Joint, e: Event, before: seq<C.Binding>, after: seq<C.Binding>) {
    after == before || after == []
    || (|after| == |before| + 1 && after[..|before|] == before && Asks(limits, j, e, after[|before|]))
  }

  lemma IssuedByStep(hash: Hasher, rules: Rules, limits: C.Rules, j: Joint, snaps: seq<R.Snap>, e: Event)
    requires Kept(hash, rules, limits, j, snaps)
    ensures IssuesOne(limits, j, e, j.challenges.issued, Step(hash, rules, limits, j, e).challenges.issued)
  {
    hide R.Kept, H.Kept, LogKept, WaitingKept;
    match e
    case BeginEvent(id, decision, operatorID, rpID, origin, reading, fault, raw, draws) =>
      BeginIssues(hash, rules, limits, j, snaps, id, decision, operatorID, rpID, origin, reading, fault, raw, draws);
    case ChallengeEvent(c) =>
      if c.IssueOne? { IssuedOnly(limits, j.challenges, c.q, c.raw, c.draws); } else { OthersIssueNone(limits, j, c); }
    case FinishEvent(tx, raw) =>
      if tx in j.challenges.flights && j.challenges.flights[tx].phase.Proved? {
        OthersIssueNone(limits, j,
          H.FinishOne(tx, C.CredentialID(hash, j.challenges.flights[tx].phase.credential), raw));
      }
      hide C.CredentialID, C.Finish, ValidVerified;
    case StoreEvent(x) => hide R.Step;
    case DecideEvent(tx, reading, fault) => hide CallOn, Decide;
    case Restart =>
  }

  lemma OthersIssueNone(limits: C.Rules, j: Joint, c: H.Event)
    requires !c.IssueOne?
    ensures H.Step(limits, j.challenges, c).issued == j.challenges.issued
  {
    hide C.Finish, C.Reserve, C.Purge, H.PurgedFates, H.KeptIDs, H.SetFate, H.DiscardedFates;
  }

  /** One issue of the manager: at most one challenge more, for just that request and the configured lifetime. */
  lemma IssuedOnly(limits: C.Rules, s: H.System, q: C.Request, raw: int, draws: seq<Option<Bytes32>>)
    ensures var after := H.Step(limits, s, H.IssueOne(q, raw, draws)).issued;
      after == s.issued
      || (|after| == |s.issued| + 1 && after[..|s.issued|] == s.issued
          && var b := after[|s.issued|];
             b.request == q && b.issuedAt == raw / 1_000_000_000 && b.expiresAt == raw / 1_000_000_000 + limits.ttl)
  {
    hide C.Issue, C.Readable, C.Purge, C.OpenAt, C.FirstFree, C.WellFormed, C.ValidRequest, H.PurgedFates, H.KeptIDs,
      Base64.Encode,
      C.Trusted;
    C.IssuedExactly(limits, s.m, q, raw, draws);
  }

  lemma BeginIssues(hash: Hasher, rules: Rules, limits: C.Rules, j: Joint, snaps: seq<R.Snap>, id: string,
                    decision: C.Decision, operatorID: string, rpID: string, origin: string, reading: int,
                    fault: ApprovalStore.Fault, raw: int, draws: seq<Option<Bytes32>>)
    requires Kept(hash, rules, limits, j, snaps)
    ensures var e := BeginEvent(id, decision, operatorID, rpID, origin, reading, fault, raw, draws);
      IssuesOne(limits, j, e, j.challenges.issued, Step(hash, rules, limits, j, e).challenges.issued)
  {
    hide Apply, R.Kept, H.Kept, LogKept, WaitingKept, H.Step, A.Readable, A.Committed, A.HasRoom;
    if j.world.mem.Some? {
      var m := Machine(j.world.mem.value, j.world.disk);
      A.GetAnswers(hash, rules, m, id, reading, fault);
      var r := PendingRecord(CallOn(hash, rules, j.world, Get(id), reading, fault).1);
      if r.Some? {
        MemoryNamed(hash, rules, limits, j, snaps, id);
        IssuedOnly(limits, j.challenges, RequestFor(r.value, decision, operatorID, rpID, origin), raw, draws);
      }
    }
  }

  lemma MemoryNamed(hash: Hasher, rules: Rules, limits: C.Rules, j: Joint, snaps: seq<R.Snap>, id: string)
    requires Kept(hash, rules, limits, j, snaps) && j.world.mem.Some? && Usable(j.world.mem.value)
      && id in j.world.mem.value.records
    ensures j.world.mem.value.records[id].requestID == id
  {
    hide R.Kept, H.Kept, LogKept, WaitingKept, R.Stored;
    R.KeptParts(hash, rules, j.world, snaps);
    R.StoredIsGood(hash, rules, j.world.disk.state, R.Last(snaps));
    R.SubjectID(hash, rules, j.world.mem.value.records, R.Last(snaps).observed, id);
  }

  /** The event of the challenge manager inside a step, if any. */
  function Inner(hash: Hasher, rules: Rules, limits: C.Rules, j: Joint, e: Event): Option<H.Event> {
    match e
    case BeginEvent(id, decision, operatorID, rpID, origin, reading, fault, raw, draws) =>
      (match PendingRecord(CallOn(hash, rules, j.world, Get(id), reading, fault).1)
       case None => None
       case Some(r) => Some(H.IssueOne(RequestFor(r, decision, operatorID, rpID, origin), raw, draws)))
    case ChallengeEvent(c) => if c.FinishOne? then None else Some(c)
    case FinishEvent(tx, raw) =>
      if tx in j.waiting || tx !in j.challenges.flights || !j.challenges.flights[tx].phase.Proved? then None
      else Some(H.FinishOne(tx, C.CredentialID(hash, j.challenges.flights[tx].phase.credential), raw))
    case _ => None
  }

  lemma InnerStep(hash: Hasher, rules: Rules, limits: C.Rules, j: Joint, e: Event)
    requires forall tx :: tx in j.challenges.flights ==> j.challenges.flights[tx].issue < |j.challenges.issued|
    ensures Step(hash, rules, limits, j, e).challenges
         == match Inner(hash, rules, limits, j, e)
            case None => if e.Restart? then H.Start() else j.challenges
            case Some(c) => H.Step(limits, j.challenges, c)
  {
    hide Apply, H.Step, R.Step, C.Finish, C.CredentialID, CallOn, Decide, PendingRecord, ValidVerified;
  }

  lemma FlightsEarnedNext(hash: Hasher, rules: Rules, limits: C.Rules, events: seq<Event>, e: Event, j: Joint)
    requires H.Kept(limits, j.challenges) && FlightsEarned(hash, limits, events, j.challenges)
      && FlightsEarned(hash, limits, events + [e], j.challenges)
    ensures FlightsEarned(hash, limits, events + [e], Step(hash, rules, limits, j, e).challenges)
  {
    hide H.Kept, H.Step, Step, CallOn, PendingRecord, Taken, Proved, C.CredentialID;
    forall tx | tx in j.challenges.flights ensures j.challenges.flights[tx].issue < |j.challenges.issued| {
      H.FlightIssue(limits, j.challenges, tx);
    }
    InnerStep(hash, rules, limits, j, e);
    var inner, t := Inner(hash, rules, limits, j, e), Step(hash, rules, limits, j, e).challenges;
    if inner.Some? {
      forall tx | tx in t.flights
        ensures t.flights[tx].issue < |t.issued| && Taken(limits, events + [e], tx, t.issued[t.flights[tx].issue])
          && (t.flights[tx].phase.Proved? ==>
                Proved(hash, events + [e], tx, C.CredentialID(hash, t.flights[tx].phase.credential)))
      {
        H.FlightsMove(limits, j.challenges, inner.value, tx);
        TakenStays(limits, events, e, tx, t.issued[t.flights[tx].issue]);
        if t.flights[tx].phase.Proved? {
          ProvedStays(hash, events, e, tx, C.CredentialID(hash, t.flights[tx].phase.credential));
        }
      }
    }
  }

  lemma IssuedAskedNext(hash: Hasher, rules: Rules, limits: C.Rules, events: seq<Event>, e: Event, j: Joint,
                        snaps: seq<R.Snap>)
    requires j == After(hash, rules, limits, events) && Kept(hash, rules, limits, j, snaps)
      && IssuedAsked(hash, rules, limits, events + [e], j.challenges.issued)
    ensures IssuedAsked(hash, rules, limits, events + [e], Step(hash, rules, limits, j, e).challenges.issued)
  {
    hide Kept, Step, Asked, After, Asks;
    IssuedByStep(hash, rules, limits, j, snaps, e);
    var before, after := j.challenges.issued, Step(hash, rules, limits, j, e).challenges.issued;
    if |after| == |before| + 1 && after[..|before|] == before {
      AskedStays(hash, rules, limits, events, e, after[|before|]);
      forall i | 0 <= i < |before| ensures after[i] == before[i] { assert after[..|before|][i] == before[i]; }
    }
  }

  lemma LogEarnedNext(hash: Hasher, rules: Rules, limits: C.Rules, events: seq<Event>, j: Joint, tx: nat,
                      reply: Result<Reply, Failure>)
    requires WaitingEarned(hash, rules, limits, events, j.waiting) && LogEarned(hash, rules, limits, events, j.log)
    requires tx in j.waiting && Decide(reply, j.waiting[tx].verified).Some?
    ensures LogEarned(hash, rules, limits, events,
      j.log + [Entry(j.waiting[tx].binding, reply.value.r, Decide(reply, j.waiting[tx].verified).value)])
  {
    hide Earned, MatchesTransition;
    var v := j.waiting[tx].verified;
    var log := j.log + [Entry(j.waiting[tx].binding, reply.value.r, Decide(reply, v).value)];
    assert ByOne(hash, rules, limits, events, j.waiting[tx].binding, v.credentialID) by {
      assert Earned(hash, rules, limits, events, tx, j.waiting[tx].binding, v.credentialID);
    }
    hide ByOne;
    forall k | 0 <= k < |log| ensures ByOne(hash, rules, limits, events, log[k].binding, log[k].result.credentialID) {
      if k < |j.log| { assert log[k] == j.log[k]; } else { assert log[k].result.credentialID == v.credentialID; }
    }
  }

  lemma WaitingEarnedNext(hash: Hasher, rules: Rules, limits: C.Rules, events: seq<Event>, e: Event, j: Joint)
    requires AllEarned(hash, rules, limits, events, j)
    ensures var t := Step(hash, rules, limits, j, e);
      WaitingEarned(hash, rules, limits, events, t.waiting) && LogEarned(hash, rules, limits, events, t.log)
  {
    hide Apply, H.Step, R.Step, C.CredentialID, CallOn, PendingRecord, ValidVerified, Asked, Taken, Proved,
      MatchesTransition, C.Readable, C.Finish;
    match e
    case FinishEvent(tx, raw) =>
      if tx in j.challenges.flights && j.challenges.flights[tx].phase.Proved? {
        C.FinishedExactly(j.challenges.m, j.challenges.issued[j.challenges.flights[tx].issue],
          C.CredentialID(hash, j.challenges.flights[tx].phase.credential), raw);
      }
    case DecideEvent(tx, reading, fault) =>
      if tx in j.waiting {
        var v := j.waiting[tx].verified;
        var reply := CallOn(hash, rules, j.world, DecisionOp(v), reading, fault).1;
        if Decide(reply, v).Some? { LogEarnedNext(hash, rules, limits, events, j, tx, reply); }
      }
    case _ =>
  }

  lemma EarnedNext(hash: Hasher, rules: Rules, limits: C.Rules, events: seq<Event>, e: Event, j: Joint,
                   snaps: seq<R.Snap>)
    requires j == After(hash, rules, limits, events) && Kept(hash, rules, limits, j, snaps)
      && AllEarned(hash, rules, limits, events, j)
    ensures AllEarned(hash, rules, limits, events + [e], Step(hash, rules, limits, j, e))
  {
    hide R.Kept, H.Kept, LogKept, WaitingKept, Step, Asked, Taken, Proved, C.CredentialID, IssuedAsked, FlightsEarned,
      WaitingEarned, LogEarned;
    IssuedStay(hash, rules, limits, events, e, j.challenges.issued);
    FlightsStay(hash, limits, events, e, j.challenges);
    IssuedAskedNext(hash, rules, limits, events, e, j, snaps);
    FlightsEarnedNext(hash, rules, limits, events, e, j);
    WaitingEarnedNext(hash, rules, limits, events, e, j);
    var t := Step(hash, rules, limits, j, e);
    WaitingStay(hash, rules, limits, events, e, t.waiting, t.log);
  }

  lemma {:induction false} RunEarned(hash: Hasher, rules: Rules, limits: C.Rules, events: seq<Event>)
    returns (snaps: seq<R.Snap>)
    ensures Kept(hash, rules, limits, After(hash, rules, limits, events), snaps)
    ensures AllEarned(hash, rules, limits, events, After(hash, rules, limits, events))
    decreases |events|
  {
    hide Step, Kept, AllEarned, R.Kept, H.Kept;
    if events == [] {
      snaps := [R.Blank()];
      EmptyEarned(hash, rules, limits);
    } else {
      var before, e := events[..|events| - 1], events[|events| - 1];
      assert before + [e] == events;
      snaps := RunEarned(hash, rules, limits, before);
      EarnedNext(hash, rules, limits, before, e, After(hash, rules, limits, before), snaps);
      snaps := StepKeeps(hash, rules, limits, After(hash, rules, limits, before), snaps, e);
      RunJoined(hash, rules, limits, Empty(), before, e);
    }
  }

  lemma EmptyEarned(hash: Hasher, rules: Rules, limits: C.Rules)
    ensures Kept(hash, rules, limits, After(hash, rules, limits, []), [R.Blank()])
    ensures AllEarned(hash, rules, limits, [], After(hash, rules, limits, []))
  {
    EmptyKept(hash, rules, limits);
    assert After(hash, rules, limits, []) == Empty();
    hide Kept, Run, After, Asked, Taken, Proved, ByOne, Earned;
  }

  lemma EmptyKept(hash: Hasher, rules: Rules, limits: C.Rules)
    ensures Kept(hash, rules, limits, Empty(), [R.Blank()])
  {
    hide R.Kept, H.Kept;
    R.EmptyIsKept(hash, rules);
    H.StartKept(limits);
  }

  /** Over every run from an empty disk: each result ever returned repeats a request that was asked for, by
      Begin for the pending record of that identifier and for the decision, operator and digest it then had,
      or by someone who issued the challenge himself; its challenge was taken within its lifetime; and the
      credential is the one the verifier returned to that same consumer. */
  lemma ResultsAreAsked(hash: Hasher, rules: Rules, limits: C.Rules, events: seq<Event>, k: nat)
    requires k < |After(hash, rules, limits, events).log|
    ensures var entry := After(hash, rules, limits, events).log[k];
      Repeats(entry.result, entry.binding.request)
      && ByOne(hash, rules, limits, events, entry.binding, entry.result.credentialID)
  {
    hide After, ByOne, R.Kept, H.Kept, WaitingKept, Holds, IssuedAsked, FlightsEarned, WaitingEarned;
    var _ := RunEarned(hash, rules, limits, events);
  }
}
