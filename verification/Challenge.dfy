/** One-time approval challenges: issue, reserve, verify outside the lock, finish, close. */
module Challenge {
  import opened Text
  import opened CivilTime
  import Base64
  import Manifest

  // ---- requests ----------------------------------------------------------------------------------

  datatype Decision = Approve | Deny | Unknown(text: string)

  datatype Request = Request(
    requestID: string, digest: string, decision: Decision, operatorID: string, rpID: string, origin: string)

  predicate ValidLabel(l: string) {
    0 < |l| <= 63 && l[0] != '-' && l[|l| - 1] != '-'
    && forall i :: 0 <= i < |l| ==> 'a' <= l[i] <= 'z' || '0' <= l[i] <= '9' || l[i] == '-'
  }

  /** One part of a dotted IPv4 address: a decimal below 256 with no leading zero. */
  predicate AddressPart(p: string) {
    0 < |p| <= 3 && AllDigits(p) && (|p| > 1 ==> p[0] != '0') && DecimalValue(p) < 256
  }

  /** net.ParseIP; an IPv6 address has a colon, which no label has. */
  predicate IsAddress(s: string) {
    var parts := Split(s, '.');
    |parts| == 4 && forall p :: p in parts ==> AddressPart(p)
  }

  predicate ValidRPID(s: string) {
    0 < |s| <= 253 && !IsAddress(s) && s[|s| - 1] != '.' && forall l :: l in Split(s, '.') ==> ValidLabel(l)
  }

  /** The URL checks beyond this equality hold of every such name. */
  predicate ValidOrigin(origin: string, rpID: string) { 0 < |origin| <= 261 && origin == "https://" + rpID }

  predicate ValidRequest(q: Request) {
    ValidScalar(q.requestID, 128) && IsDigest(q.digest) && !q.decision.Unknown? && ValidScalar(q.operatorID, 128)
    && ValidRPID(q.rpID) && ValidOrigin(q.origin, q.rpID)
  }

  // ---- the manager ---------------------------------------------------------------------------------

  datatype Failure = Invalid | Random | Clock | Capacity | Closed | NotFound | Expired | Verification | Internal

  /** The lifetime is in whole seconds. */
  datatype Rules = Rules(ttl: nat, maxPending: nat)

  predicate ValidRules(r: Rules) { 0 < r.ttl <= 600 && 0 < r.maxPending <= 10_000 }

  datatype Binding = Binding(challenge: string, request: Request, issuedAt: int, expiresAt: int)

  datatype Verified = Verified(
    requestID: string, digest: string, decision: Decision, operatorID: string, credentialID: string, verifiedAt: int)

  /** lastNow is in nanoseconds; ZERO_NANOS while no clock has been read. */
  datatype Manager = Manager(pending: map<string, Binding>, lastNow: int, closed: bool)

  const NANOS := 1_000_000_000
  const ZERO_NANOS := ZERO_TIME * NANOS
  const ATTEMPTS := 4

  function Fresh(): Manager { Manager(map[], ZERO_NANOS, false) }

  /** trustedNowLocked: neither unset, nor outside the years 1 to 9999, nor behind. */
  predicate Trusted(m: Manager, raw: int) {
    ZERO_NANOS < raw && FourDigitYear(raw / NANOS) && !(m.lastNow != ZERO_NANOS && raw < m.lastNow)
  }

  function Seconds(raw: int): int { raw / NANOS }

  predicate Due(b: Binding, now: int) { now >= b.expiresAt }

  function Purge(pending: map<string, Binding>, now: int): map<string, Binding> {
    map c | c in pending && !Due(pending[c], now) :: pending[c]
  }

  /** The first fresh challenge among the random draws; a draw is None when the source fails. */
  function Draw(pending: map<string, Binding>, draws: seq<Option<Bytes32>>, attempts: nat): Result<string, Failure> {
    if attempts == 0 then Err(Internal)
    else if draws == [] || draws[0].None? then Err(Random)
    else
      var c := Base64.Encode(draws[0].value, Base64.RawURL);
      if c in pending then Draw(pending, draws[1..], attempts - 1) else Ok(c)
  }

  function Issue(rules: Rules, m: Manager, q: Request, raw: int,
                 draws: seq<Option<Bytes32>>): (Manager, Result<Binding, Failure>) {
    if !ValidRequest(q) then (m, Err(Invalid))
    else if m.closed then (m, Err(Closed))
    else if !Trusted(m, raw) then (m, Err(Clock))
    else
      var now := Seconds(raw);
      var m1 := m.(lastNow := raw, pending := Purge(m.pending, now));
      if |m1.pending| >= rules.maxPending then (m1, Err(Capacity))
      else match Draw(m1.pending, draws, ATTEMPTS)
           case Err(f) => (m1, Err(f))
           case Ok(c) =>
             var b := Binding(c, q, now, now + rules.ttl);
             (m1.(pending := m1.pending[c := b]), Ok(b))
  }

  /** The first locked section of Consume. */
  function Reserve(m: Manager, challenge: string, raw: int): (Manager, Result<Binding, Failure>) {
    if m.closed then (m, Err(Closed))
    else if !Trusted(m, raw) then (m, Err(Clock))
    else
      var now := Seconds(raw);
      var m1 := m.(lastNow := raw, pending := Purge(m.pending, now));
      if challenge in m.pending && Due(m.pending[challenge], now) then (m1, Err(Expired))
      else if challenge !in m1.pending then (m1, Err(NotFound))
      else (m1.(pending := m1.pending - {challenge}), Ok(m1.pending[challenge]))
  }

  predicate GoodAssertion(assertion: string) { 0 < |assertion| <= 65536 }

  predicate GoodCredential(credential: string) { 0 < |credential| <= 1024 }

  function CredentialID(hash: Manifest.Hasher, credential: string): (id: string)
    ensures IsDigest(id)
  {
    Manifest.Labelled(Manifest.HashOf(hash, "dev-agent-harness/passkey-credential/v1\0" + credential))
  }

  /** The second locked section of Consume. */
  function Finish(m: Manager, b: Binding, credentialID: string, raw: int): (Manager, Result<Verified, Failure>) {
    if m.closed then (m, Err(Closed))
    else if !Trusted(m, raw) then (m, Err(Clock))
    else (m.(lastNow := raw),
      Ok(Verified(b.request.requestID, b.request.digest, b.request.decision, b.request.operatorID, credentialID,
        Seconds(raw))))
  }

  function Close(m: Manager): Manager { m.(pending := map[], closed := true) }

  // ---- the manager as a class ------------------------------------------------------------------------

  class ChallengeManager {
    const rules: Rules
    var pending: map<string, Binding>
    var lastNow: int
    var closed: bool

    function Value(): Manager
      reads this
    {
      Manager(pending, lastNow, closed)
    }

    constructor (rules: Rules)
      ensures Value() == Fresh() && this.rules == rules
    {
      this.rules, pending, lastNow, closed := rules, map[], ZERO_NANOS, false;
    }

    method TrustedNow(raw: int) returns (ok: bool)
      modifies this`lastNow
      ensures ok == Trusted(old(Value()), raw) && lastNow == if ok then raw else old(lastNow)
    {
      if raw == ZERO_NANOS || raw < ZERO_NANOS || !FourDigitYear(raw / NANOS) { return false; }
      if lastNow != ZERO_NANOS && raw < lastNow { return false; }
      lastNow := raw;
      ok := true;
    }

    method PurgeDue(now: int, target: string) returns (targetDue: bool)
      modifies this`pending
      ensures pending == Purge(old(pending), now)
      ensures targetDue <==> target in old(pending) && Due(old(pending)[target], now)
    {
      hide Due;
      targetDue := false;
      var todo := pending.Keys;
      while todo != {}
        invariant todo <= pending.Keys <= old(pending).Keys
        invariant forall c :: c in pending ==> pending[c] == old(pending)[c]
        invariant forall c :: c in old(pending) && c !in todo ==> (c in pending <==> !Due(old(pending)[c], now))
        invariant targetDue <==> target in old(pending) && target !in todo && Due(old(pending)[target], now)
        decreases |todo|
      {
        var c :| c in todo;
        todo := todo - {c};
        if Due(pending[c], now) {
          if c == target { targetDue := true; }
          pending := pending - {c};
        }
      }
    }

    method IssueChallenge(q: Request, raw: int, draws: seq<Option<Bytes32>>) returns (r: Result<Binding, Failure>)
      modifies this
      ensures (Value(), r) == Issue(rules, old(Value()), q, raw, draws)
      ensures r.Ok? ==>
        r.value.request == q && r.value.issuedAt == raw / 1_000_000_000
        && r.value.expiresAt == raw / 1_000_000_000 + rules.ttl
    {
      hide ValidRequest, Trusted, Purge, Base64.Encode;
      if !ValidRequest(q) { return Err(Invalid); }
      if closed { return Err(Closed); }
      var ok := TrustedNow(raw);
      if !ok { return Err(Clock); }
      var now := Seconds(raw);
      var _ := PurgeDue(now, "");
      if |pending| >= rules.maxPending { return Err(Capacity); }
      for attempt := 0 to ATTEMPTS
        invariant attempt <= |draws|
          && Draw(pending, draws, ATTEMPTS) == Draw(pending, draws[attempt..], ATTEMPTS - attempt)
      {
        if attempt == |draws| || draws[attempt].None? { return Err(Random); }
        var challenge := Base64.Encode(draws[attempt].value, Base64.RawURL);
        assert draws[attempt..][1..] == draws[attempt + 1..];
        if challenge in pending { continue; }
        var binding := Binding(challenge, q, now, now + rules.ttl);
        pending := pending[challenge := binding];
        return Ok(binding);
      }
      r := Err(Internal);
    }

    method ReserveChallenge(challenge: string, raw: int) returns (r: Result<Binding, Failure>)
      modifies this
      ensures (Value(), r) == Reserve(old(Value()), challenge, raw)
    {
      hide Trusted, Due;
      if closed { return Err(Closed); }
      var ok := TrustedNow(raw);
      if !ok { return Err(Clock); }
      var due := PurgeDue(Seconds(raw), challenge);
      if due { return Err(Expired); }
      if challenge !in pending { return Err(NotFound); }
      r := Ok(pending[challenge]);
      pending := pending - {challenge};
    }

    method FinishChallenge(b: Binding, credentialID: string, raw: int) returns (r: Result<Verified, Failure>)
      modifies this
      ensures (Value(), r) == Finish(old(Value()), b, credentialID, raw)
    {
      hide Trusted;
      if closed { return Err(Closed); }
      var ok := TrustedNow(raw);
      if !ok { return Err(Clock); }
      r := Ok(Verified(b.request.requestID, b.request.digest, b.request.decision, b.request.operatorID,
                       credentialID, Seconds(raw)));
    }

    method CloseManager()
      modifies this
      ensures Value() == if old(closed) then old(Value()) else Close(old(Value()))
    {
      if closed { return; }
      closed, pending := true, map[];
    }
  }

  // ---- what each call answers ----------------------------------------------------------------------------

  /** A reading of the clock, in nanoseconds, after the unset instant and before the year 10000, and not
      behind the last one, if there was any. */
  predicate Readable(last: int, raw: int) {
    31_622_400_000_000_000 < raw < 315_569_520_000_000_000_000
    && (last == 31_622_400_000_000_000 || last <= raw)
  }

  lemma TrustedExactly(m: Manager, raw: int)
    ensures Trusted(m, raw) <==> Readable(m.lastNow, raw)
  {
    hide FourDigitYear;
    FourDigitsExactly(raw / NANOS);
  }

  /** Up to 128 visible characters. */
  predicate Word(s: string) { 1 <= |s| <= 128 && forall i :: 0 <= i < |s| ==> '!' <= s[i] <= '~' }

  /** A label of a domain name, in lower case. */
  predicate Label(l: string) {
    1 <= |l| <= 63 && (forall i :: 0 <= i < |l| ==> l[i] == '-' || '0' <= l[i] <= '9' || 'a' <= l[i] <= 'z')
    && l[0] != '-' && l[|l| - 1] != '-'
  }

  /** A domain name, and not an IPv4 address. */
  ghost predicate Domain(s: string) {
    |s| <= 253 && !IsAddress(s)
    && exists labels :: labels != [] && (forall l :: l in labels ==> Label(l)) && s == Join(labels, '.')
  }

  /** A request for one of the two decisions by a named operator at a domain's own origin. */
  ghost predicate WellFormed(q: Request) {
    Word(q.requestID) && Word(q.operatorID) && IsDigest(q.digest) && (q.decision == Approve || q.decision == Deny)
    && Domain(q.rpID) && q.origin == "https://" + q.rpID
  }

  lemma LabelExactly(l: string)
    ensures ValidLabel(l) <==> Label(l)
  {
  }

  lemma DomainExactly(s: string)
    ensures ValidRPID(s) <==> Domain(s)
  {
    hide ValidLabel, Label, IsAddress;
    forall l ensures ValidLabel(l) <==> Label(l) { LabelExactly(l); }
    if ValidRPID(s) {
      JoinOfSplit(s, '.');
      assert s == Join(Split(s, '.'), '.');
    }
    if Domain(s) {
      var labels :| labels != [] && (forall l :: l in labels ==> Label(l)) && s == Join(labels, '.');
      forall k | 0 <= k < |labels| ensures '.' !in labels[k] { NoDot(labels[k]); }
      SplitExactly(s, '.', labels);
      LastOfJoin(labels);
    }
  }

  lemma NoDot(l: string)
    requires Label(l)
    ensures '.' !in l
  {
  }

  /** A joined name is no shorter than its last label, and ends as it does. */
  lemma {:induction false} LastOfJoin(labels: seq<string>)
    requires labels != [] && forall l :: l in labels ==> Label(l)
    ensures var s := Join(labels, '.'); s != "" && s[|s| - 1] != '.'
    decreases |labels|
  {
    assert labels[0] in labels;
    if |labels| > 1 {
      assert forall l :: l in labels[1..] ==> l in labels;
      LastOfJoin(labels[1..]);
    } else {
      NoDot(labels[0]);
      assert labels[0][|labels[0]| - 1] in labels[0];
    }
  }

  lemma RequestExactly(q: Request)
    ensures ValidRequest(q) <==> WellFormed(q)
  {
    hide ValidRPID, Domain, IsDigest;
    DomainExactly(q.rpID);
    if ValidRequest(q) || Domain(q.rpID) { NameLength(q.rpID); }
  }

  lemma NameLength(s: string)
    requires ValidRPID(s) || Domain(s)
    ensures |s| <= 253
  {
    hide IsAddress, ValidLabel, Label;
  }

  /** The challenges not yet expired at a second. */
  function OpenAt(pending: map<string, Binding>, second: int): map<string, Binding> {
    map c | c in pending && second < pending[c].expiresAt :: pending[c]
  }

  /** Draw k is the first that spells a challenge not in use, and no draw up to it failed. */
  predicate FirstFree(open: map<string, Binding>, draws: seq<Option<Bytes32>>, k: nat) {
    k < |draws| && (forall j :: 0 <= j <= k ==> draws[j].Some?)
    && (forall j :: 0 <= j < k ==> Base64.Encode(draws[j].value, Base64.RawURL) in open)
    && Base64.Encode(draws[k].value, Base64.RawURL) !in open
  }

  lemma {:induction false} DrawnExactly(open: map<string, Binding>, draws: seq<Option<Bytes32>>, attempts: nat)
    returns (k: nat)
    ensures Draw(open, draws, attempts).Ok? ==>
              k < attempts && FirstFree(open, draws, k)
              && Draw(open, draws, attempts).value == Base64.Encode(draws[k].value, Base64.RawURL)
    ensures (exists i :: 0 <= i < attempts && FirstFree(open, draws, i)) ==> Draw(open, draws, attempts).Ok?
    decreases attempts
  {
    hide Base64.Encode;
    k := 0;
    if attempts > 0 && draws != [] && draws[0].Some? && Base64.Encode(draws[0].value, Base64.RawURL) in open {
      var i := DrawnExactly(open, draws[1..], attempts - 1);
      k := i + 1;
      FirstFreeBefore(open, draws, i);
      forall j | 0 < j < attempts && FirstFree(open, draws, j) ensures FirstFree(open, draws[1..], j - 1) {
        FirstFreeBefore(open, draws, j - 1);
      }
    }
  }

  lemma FirstFreeBefore(open: map<string, Binding>, draws: seq<Option<Bytes32>>, k: nat)
    requires draws != [] && draws[0].Some? && Base64.Encode(draws[0].value, Base64.RawURL) in open
    ensures FirstFree(open, draws[1..], k) <==> FirstFree(open, draws, k + 1)
  {
    hide Base64.Encode;
    if FirstFree(open, draws[1..], k) {
      forall j | 0 <= j <= k + 1 ensures draws[j].Some? { if j > 0 { assert draws[1..][j - 1] == draws[j]; } }
      forall j | 0 <= j < k + 1 ensures Base64.Encode(draws[j].value, Base64.RawURL) in open {
        if j > 0 { assert draws[1..][j - 1] == draws[j]; }
      }
    }
    if FirstFree(open, draws, k + 1) {
      forall j | 0 <= j <= k ensures draws[1..][j].Some? { assert draws[1..][j] == draws[j + 1]; }
    }
  }

  /** A challenge is issued if and only if the request is well formed, the manager open, the clock
      readable, fewer challenges open than allowed, and one of four draws fresh; it is bound to just
      that request, from that second on and for the configured lifetime. */
  lemma IssuedExactly(rules: Rules, m: Manager, q: Request, raw: int, draws: seq<Option<Bytes32>>)
    ensures var (m', r) := Issue(rules, m, q, raw, draws); var open := OpenAt(m.pending, raw / 1_000_000_000);
      (r.Ok? <==> WellFormed(q) && !m.closed && Readable(m.lastNow, raw) && |open| < rules.maxPending
                  && exists k :: 0 <= k < 4 && FirstFree(open, draws, k))
      && (r.Ok? ==>
            var b := r.value;
            b.request == q && b.issuedAt == raw / 1_000_000_000 && b.expiresAt == raw / 1_000_000_000 + rules.ttl
            && (exists k :: 0 <= k < 4 && FirstFree(open, draws, k)
                            && b.challenge == Base64.Encode(draws[k].value, Base64.RawURL))
            && b.challenge !in open && m' == Manager(open[b.challenge := b], raw, false))
      && (r.Err? ==> m' == m || m' == Manager(open, raw, m.closed))
  {
    hide ValidRequest, WellFormed, Trusted, Readable, Base64.Encode, FirstFree, Draw;
    RequestExactly(q);
    TrustedExactly(m, raw);
    var open := OpenAt(m.pending, raw / 1_000_000_000);
    assert Purge(m.pending, raw / NANOS) == open;
    var k := DrawnExactly(open, draws, ATTEMPTS);
    if Draw(open, draws, ATTEMPTS).Ok? { FreeAt(open, draws, k); }
  }

  lemma FreeAt(open: map<string, Binding>, draws: seq<Option<Bytes32>>, k: nat)
    requires FirstFree(open, draws, k)
    ensures k < |draws| && draws[k].Some? && Base64.Encode(draws[k].value, Base64.RawURL) !in open
  {
  }

  /** A challenge is taken if and only if it is pending and open, and then it is gone; one met after its
      expiry is reported as such and gone too. */
  lemma TakenExactly(m: Manager, challenge: string, raw: int)
    ensures var (m', r) := Reserve(m, challenge, raw);
      var live := !m.closed && Readable(m.lastNow, raw);
      var second := raw / 1_000_000_000;
      (r.Ok? <==> live && challenge in m.pending && second < m.pending[challenge].expiresAt)
      && (r.Ok? ==> r.value == m.pending[challenge])
      && (r == Err(Expired) <==> live && challenge in m.pending && m.pending[challenge].expiresAt <= second)
      && m' == if live then Manager(OpenAt(m.pending, second) - {challenge}, raw, false) else m
  {
    hide Trusted, Readable;
    TrustedExactly(m, raw);
    assert Purge(m.pending, raw / NANOS) == OpenAt(m.pending, raw / 1_000_000_000);
    var open := OpenAt(m.pending, raw / 1_000_000_000);
    if challenge !in open { assert open - {challenge} == open; }
  }

  /** A proof is reported if and only if the manager is still open and the clock readable: it says what
      the challenge was bound to, by which credential, and when. */
  lemma FinishedExactly(m: Manager, b: Binding, credentialID: string, raw: int)
    ensures var (m', r) := Finish(m, b, credentialID, raw); var q := b.request;
      (r.Ok? <==> !m.closed && Readable(m.lastNow, raw))
      && (r.Ok? ==>
            r.value.requestID == q.requestID && r.value.digest == q.digest && r.value.decision == q.decision
            && r.value.operatorID == q.operatorID && r.value.credentialID == credentialID
            && r.value.verifiedAt == raw / 1_000_000_000)
      && m'.pending == m.pending && m'.closed == m.closed && m'.lastNow == if r.Ok? then raw else m.lastNow
  {
    hide Trusted, Readable;
    TrustedExactly(m, raw);
  }
}
