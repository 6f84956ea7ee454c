/** All interleavings of issuing, consuming and closing: where every issued challenge is at every
    step, and that a verifier runs and a result comes back at most once for each. */
module ChallengeRuns {
  import opened Text
  import opened Challenge

  datatype Fate = Pending | Reserved | Finished | Purged | Discarded

  /** How far a consumer is between its two locked sections. */
  datatype Phase = Taken | Verifying | Proved(credential: string)

  datatype Flight = Flight(issue: nat, phase: Phase)

  /** The manager, and beside it the history: every issuance in order, where it is, how often its
      verifier ran, and what was returned. */
  datatype System = System(
    m: Manager, ids: map<string, nat>, issued: seq<Binding>, fates: seq<Fate>, calls: seq<nat>,
    flights: map<nat, Flight>, results: seq<(nat, Verified)>)

  datatype Event =
    | IssueOne(q: Request, raw: int, draws: seq<Option<Bytes32>>)
    | ReserveOne(tx: nat, challenge: string, raw: int)
    | CallVerifier(tx: nat, assertion: string)
    | VerifierReturns(tx: nat, credential: Option<string>)
    | FinishOne(tx: nat, credentialID: string, raw: int)
    | CloseAll

  function Start(): System { System(Fresh(), map[], [], [], [], map[], []) }

  function SetFate(fates: seq<Fate>, i: nat, f: Fate): seq<Fate> { if i < |fates| then fates[i := f] else fates }

  function AddCall(calls: seq<nat>, i: nat): seq<nat> { if i < |calls| then calls[i := calls[i] + 1] else calls }

  /** Every pending issuance that is due is purged. */
  function PurgedFates(fates: seq<Fate>, issued: seq<Binding>, now: int): seq<Fate> {
    seq(|fates|, i requires 0 <= i < |fates| => if i < |issued| && fates[i].Pending? && Due(issued[i], now) then Purged
      else fates[i])
  }

  function DiscardedFates(fates: seq<Fate>): seq<Fate> {
    seq(|fates|, i requires 0 <= i < |fates| => if fates[i].Pending? then Discarded else fates[i])
  }

  function KeptIDs(ids: map<string, nat>, pending: map<string, Binding>): map<string, nat> {
    map c | c in ids && c in pending :: ids[c]
  }

  predicate ReadClock(m: Manager, raw: int) { !m.closed && Trusted(m, raw) }

  /** The purge at the head of a locked section, once it has read the clock. */
  function AfterPurge(s: System, raw: int): System {
    var pending := Purge(s.m.pending, Seconds(raw));
    s.(m := s.m.(pending := pending, lastNow := raw), ids := KeptIDs(s.ids, pending),
      fates := PurgedFates(s.fates, s.issued, Seconds(raw)))
  }

  function AfterIssue(s: System, b: Binding): System {
    s.(m := s.m.(pending := s.m.pending[b.challenge := b]), ids := s.ids[b.challenge := |s.issued|],
       issued := s.issued + [b], fates := s.fates + [Pending], calls := s.calls + [0])
  }

  function AfterReserve(s: System, tx: nat, challenge: string, i: nat): System {
    s.(m := s.m.(pending := s.m.pending - {challenge}), ids := s.ids - {challenge},
       fates := SetFate(s.fates, i, Reserved), flights := s.flights[tx := Flight(i, Taken)])
  }

  function Ended(s: System, tx: nat, i: nat): System {
    s.(fates := SetFate(s.fates, i, Finished), flights := s.flights - {tx})
  }

  function Step(rules: Rules, s: System, e: Event): System {
    match e
    case IssueOne(q, raw, draws) =>
      if !ValidRequest(q) || !ReadClock(s.m, raw) then s
      else (match Issue(rules, s.m, q, raw, draws).1
            case Err(_) => AfterPurge(s, raw)
            case Ok(b) => AfterIssue(AfterPurge(s, raw), b))
    case ReserveOne(tx, challenge, raw) =>
      if tx in s.flights || !ReadClock(s.m, raw) then s
      else if Reserve(s.m, challenge, raw).1.Err? || challenge !in s.ids then AfterPurge(s, raw)
      else AfterReserve(AfterPurge(s, raw), tx, challenge, s.ids[challenge])
    case CallVerifier(tx, assertion) =>
      if tx !in s.flights || !s.flights[tx].phase.Taken? then s
      else if !GoodAssertion(assertion) then Ended(s, tx, s.flights[tx].issue)
      else s.(calls := AddCall(s.calls, s.flights[tx].issue),
        flights := s.flights[tx := Flight(s.flights[tx].issue, Verifying)])
    case VerifierReturns(tx, credential) =>
      if tx !in s.flights || !s.flights[tx].phase.Verifying? then s
      else if credential.None? || !GoodCredential(credential.value) then Ended(s, tx, s.flights[tx].issue)
      else s.(flights := s.flights[tx := Flight(s.flights[tx].issue, Proved(credential.value))])
    case FinishOne(tx, credentialID, raw) =>
      if tx !in s.flights || !s.flights[tx].phase.Proved? || s.flights[tx].issue >= |s.issued| then s
      else
        var i := s.flights[tx].issue;
        var (m, r) := Finish(s.m, s.issued[i], credentialID, raw);
        Ended(s, tx, i).(m := m, results := if r.Ok? then s.results + [(i, r.value)] else s.results)
    case CloseAll => s.(m := Close(s.m), ids := map[], fates := DiscardedFates(s.fates))
  }

  // ---- the invariant -----------------------------------------------------------------------------------

  /** A pending issuance is exactly one entry of the manager's map, under its own challenge. */
  predicate PendingKept(pending: map<string, Binding>, ids: map<string, nat>, issued: seq<Binding>, fates: seq<Fate>) {
    |issued| == |fates| && ids.Keys == pending.Keys
    && (forall c :: c in ids ==>
      ids[c] < |issued| && fates[ids[c]].Pending? && issued[ids[c]] == pending[c] && pending[c].challenge == c)
    && forall i :: 0 <= i < |fates| && fates[i].Pending? ==> issued[i].challenge in ids && ids[issued[i].challenge] == i
  }

  predicate InFlight(flights: map<nat, Flight>, i: nat) { exists tx :: tx in flights && flights[tx].issue == i }

  /** A reserved issuance is exactly one consumer in flight; its verifier ran once if it was called. */
  predicate FlightsKept(fates: seq<Fate>, calls: seq<nat>, flights: map<nat, Flight>) {
    |calls| == |fates|
    && (forall tx :: tx in flights ==> flights[tx].issue < |fates| && fates[flights[tx].issue].Reserved?
                                        && calls[flights[tx].issue] == (if flights[tx].phase.Taken? then 0 else 1))
    && (forall a, b :: a in flights && b in flights && flights[a].issue == flights[b].issue ==> a == b)
    && (forall i :: 0 <= i < |fates| && fates[i].Reserved? ==> InFlight(flights, i))
    && forall i :: 0 <= i < |calls| ==> calls[i] <= 1 && (!fates[i].Reserved? && !fates[i].Finished? ==> calls[i] == 0)
  }

  predicate Carries(v: Verified, q: Request) {
    v.requestID == q.requestID && v.digest == q.digest && v.decision == q.decision && v.operatorID == q.operatorID
  }

  /** What was returned came from a finished issuance whose verifier ran, once each, as it was bound. */
  predicate ResultsKept(fates: seq<Fate>, calls: seq<nat>, issued: seq<Binding>, results: seq<(nat, Verified)>) {
    |calls| == |fates| == |issued|
    && (forall k :: 0 <= k < |results| ==>
      results[k].0 < |fates| && fates[results[k].0].Finished? && calls[results[k].0] == 1
                                            && Carries(results[k].1, issued[results[k].0].request))
    && forall j, k :: 0 <= j < k < |results| ==> results[j].0 != results[k].0
  }

  /** Every issuance is for a well-formed request and lasts the configured lifetime. */
  predicate IssuedWell(rules: Rules, issued: seq<Binding>) {
    forall i :: 0 <= i < |issued| ==>
      ValidRequest(issued[i].request) && issued[i].expiresAt == issued[i].issuedAt + rules.ttl
  }

  predicate Kept(rules: Rules, s: System) {
    PendingKept(s.m.pending, s.ids, s.issued, s.fates) && FlightsKept(s.fates, s.calls, s.flights)
    && ResultsKept(s.fates, s.calls, s.issued, s.results) && IssuedWell(rules, s.issued)
    && |s.m.pending| <= rules.maxPending && (s.m.closed ==> s.m.pending == map[])
  }

  lemma StartKept(rules: Rules)
    ensures Kept(rules, Start())
  {
  }

  /** The manager inside the history moves as the manager's own operations say. */
  lemma StepsAreTheManagers(rules: Rules, s: System, e: Event)
    requires s.ids.Keys == s.m.pending.Keys
    ensures match e
            case IssueOne(q, raw, draws) => Step(rules, s, e).m == Issue(rules, s.m, q, raw, draws).0
            case ReserveOne(tx, challenge, raw) =>
              tx !in s.flights ==> Step(rules, s, e).m == Reserve(s.m, challenge, raw).0
            case CallVerifier(_, _) => Step(rules, s, e).m == s.m
            case VerifierReturns(_, _) => Step(rules, s, e).m == s.m
            case FinishOne(tx, id, raw) =>
              (tx in s.flights && s.flights[tx].phase.Proved? && s.flights[tx].issue < |s.issued|) ==>
                Step(rules, s, e).m == Finish(s.m, s.issued[s.flights[tx].issue], id, raw).0
            case CloseAll => Step(rules, s, e).m == Close(s.m)
  {
    hide ValidRequest, Trusted, PurgedFates, Draw, Due;
  }

  // ---- where the pending ones are ----------------------------------------------------------------------

  lemma PurgedPending(pending: map<string, Binding>, ids: map<string, nat>, issued: seq<Binding>, fates: seq<Fate>,
                      now: int)
    requires PendingKept(pending, ids, issued, fates)
    ensures PendingKept(Purge(pending, now), KeptIDs(ids, Purge(pending, now)), issued, PurgedFates(fates, issued, now))
    ensures |Purge(pending, now)| <= |pending|
  {
    hide Due;
    var fates' := PurgedFates(fates, issued, now);
    FewerPending(Purge(pending, now), pending);
    forall i | 0 <= i < |fates'| && fates'[i].Pending?
      ensures issued[i].challenge in KeptIDs(ids, Purge(pending, now)) && ids[issued[i].challenge] == i
    {
      assert fates[i].Pending?;
    }
  }

  lemma IssuedPending(pending: map<string, Binding>, ids: map<string, nat>, issued: seq<Binding>, fates: seq<Fate>,
                      b: Binding)
    requires PendingKept(pending, ids, issued, fates) && b.challenge !in pending
    ensures PendingKept(pending[b.challenge := b], ids[b.challenge := |issued|], issued + [b], fates + [Pending])
  {
    var issued', fates', ids' := issued + [b], fates + [Pending], ids[b.challenge := |issued|];
    forall i | 0 <= i < |fates'| && fates'[i].Pending?
      ensures issued'[i].challenge in ids' && ids'[issued'[i].challenge] == i
    {
      if i < |fates| { assert fates[i].Pending?; }
    }
  }

  lemma ReservedPending(pending: map<string, Binding>, ids: map<string, nat>, issued: seq<Binding>, fates: seq<Fate>,
                        challenge: string)
    requires PendingKept(pending, ids, issued, fates) && challenge in ids
    ensures PendingKept(pending - {challenge}, ids - {challenge}, issued, fates[ids[challenge] := Reserved])
    ensures |pending - {challenge}| <= |pending|
  {
    var ids', fates' := ids - {challenge}, fates[ids[challenge] := Reserved];
    FewerPending(pending - {challenge}, pending);
    forall i | 0 <= i < |fates'| && fates'[i].Pending?
      ensures issued[i].challenge in ids' && ids'[issued[i].challenge] == i
    {
      assert fates[i].Pending?;
    }
    forall c | c in ids' ensures ids'[c] != ids[challenge] { assert issued[ids[c]].challenge == c; }
  }

  lemma EndedPending(pending: map<string, Binding>, ids: map<string, nat>, issued: seq<Binding>, fates: seq<Fate>,
                     i: nat)
    requires PendingKept(pending, ids, issued, fates) && i < |fates| && fates[i].Reserved?
    ensures PendingKept(pending, ids, issued, fates[i := Finished])
  {
    var fates' := fates[i := Finished];
    forall k | 0 <= k < |fates'| && fates'[k].Pending?
      ensures issued[k].challenge in ids && ids[issued[k].challenge] == k
    {
      assert fates[k].Pending?;
    }
  }

  lemma FewerPending(a: map<string, Binding>, b: map<string, Binding>)
    requires a.Keys <= b.Keys
    ensures |a| <= |b|
  {
    SubsetSize(a.Keys, b.Keys);
    assert |a| == |a.Keys| && |b| == |b.Keys|;
  }

  // ---- where the reserved ones are ---------------------------------------------------------------------

  /** Fates may move among those that are neither reserved nor finished. */
  lemma MovedFlights(fates: seq<Fate>, calls: seq<nat>, flights: map<nat, Flight>, fates': seq<Fate>)
    requires FlightsKept(fates, calls, flights) && |fates'| == |fates|
    requires forall i :: 0 <= i < |fates| ==>
      fates'[i] == fates[i] || (fates[i].Pending? && (fates'[i].Purged? || fates'[i].Discarded?))
    ensures FlightsKept(fates', calls, flights)
  {
    hide InFlight;
    forall i | 0 <= i < |fates'| && fates'[i].Reserved? ensures InFlight(flights, i) { assert fates[i].Reserved?; }
  }

  lemma IssuedFlights(fates: seq<Fate>, calls: seq<nat>, flights: map<nat, Flight>)
    requires FlightsKept(fates, calls, flights)
    ensures FlightsKept(fates + [Pending], calls + [0], flights)
  {
    hide InFlight;
    var fates' := fates + [Pending];
    forall i | 0 <= i < |fates'| && fates'[i].Reserved? ensures InFlight(flights, i) { assert fates[i].Reserved?; }
  }

  lemma ReservedFlights(fates: seq<Fate>, calls: seq<nat>, flights: map<nat, Flight>, tx: nat, i: nat)
    requires FlightsKept(fates, calls, flights) && tx !in flights && i < |fates| && fates[i].Pending?
    ensures FlightsKept(fates[i := Reserved], calls, flights[tx := Flight(i, Taken)])
  {
    var fates', flights' := fates[i := Reserved], flights[tx := Flight(i, Taken)];
    assert calls[i] == 0;
    forall k | 0 <= k < |fates'| && fates'[k].Reserved? ensures InFlight(flights', k) {
      if k == i { assert flights'[tx].issue == i; } else {
        assert fates[k].Reserved? && InFlight(flights, k);
        var x :| x in flights && flights[x].issue == k;
        assert flights'[x].issue == k;
      }
    }
  }

  lemma EndedFlights(fates: seq<Fate>, calls: seq<nat>, flights: map<nat, Flight>, tx: nat)
    requires FlightsKept(fates, calls, flights) && tx in flights
    ensures FlightsKept(fates[flights[tx].issue := Finished], calls, flights - {tx})
  {
    var i := flights[tx].issue;
    var fates', flights' := fates[i := Finished], flights - {tx};
    forall k | 0 <= k < |fates'| && fates'[k].Reserved? ensures InFlight(flights', k) {
      assert fates[k].Reserved? && InFlight(flights, k);
      var x :| x in flights && flights[x].issue == k;
      assert x in flights';
    }
  }

  lemma AdvancedFlights(fates: seq<Fate>, calls: seq<nat>, flights: map<nat, Flight>, tx: nat, phase: Phase,
                        calls': seq<nat>)
    requires FlightsKept(fates, calls, flights) && tx in flights && !phase.Taken? && |calls'| == |calls|
    requires calls' == calls[flights[tx].issue := 1]
    ensures FlightsKept(fates, calls', flights[tx := Flight(flights[tx].issue, phase)])
  {
    var i := flights[tx].issue;
    var flights' := flights[tx := Flight(i, phase)];
    forall k | 0 <= k < |fates| && fates[k].Reserved? ensures InFlight(flights', k) {
      assert InFlight(flights, k);
      var x :| x in flights && flights[x].issue == k;
      assert flights'[x].issue == k;
    }
    forall x | x in flights' && x != tx ensures flights'[x].issue != i { assert flights[x].issue != flights[tx].issue; }
  }

  // ---- what was returned -----------------------------------------------------------------------------

  lemma MovedResults(fates: seq<Fate>, calls: seq<nat>, issued: seq<Binding>, results: seq<(nat, Verified)>,
                     fates': seq<Fate>, calls': seq<nat>)
    requires ResultsKept(fates, calls, issued, results) && |fates'| == |fates| == |calls'|
    requires forall i :: 0 <= i < |fates| && fates[i].Finished? ==> fates'[i].Finished? && calls'[i] == calls[i]
    ensures ResultsKept(fates', calls', issued, results)
  {
    hide Carries;
  }

  lemma IssuedResults(fates: seq<Fate>, calls: seq<nat>, issued: seq<Binding>, results: seq<(nat, Verified)>,
                      b: Binding)
    requires ResultsKept(fates, calls, issued, results)
    ensures ResultsKept(fates + [Pending], calls + [0], issued + [b], results)
  {
    hide Carries;
  }

  lemma ResultAdded(fates: seq<Fate>, calls: seq<nat>, issued: seq<Binding>, results: seq<(nat, Verified)>, i: nat,
                    v: Verified)
    requires ResultsKept(fates, calls, issued, results) && i < |fates| && fates[i].Reserved? && calls[i] == 1
      && Carries(v, issued[i].request)
    ensures ResultsKept(fates[i := Finished], calls, issued, results + [(i, v)])
  {
    hide Carries;
    forall k | 0 <= k < |results| ensures results[k].0 != i { assert fates[results[k].0].Finished?; }
  }

  // ---- every step --------------------------------------------------------------------------------------

  lemma PurgeKeeps(rules: Rules, s: System, raw: int)
    requires Kept(rules, s)
    ensures Kept(rules, AfterPurge(s, raw))
  {
    hide PendingKept, FlightsKept, ResultsKept, IssuedWell, Due;
    PurgedPending(s.m.pending, s.ids, s.issued, s.fates, Seconds(raw));
    MovedFlights(s.fates, s.calls, s.flights, PurgedFates(s.fates, s.issued, Seconds(raw)));
    SameLengths(s);
    MovedResults(s.fates, s.calls, s.issued, s.results, PurgedFates(s.fates, s.issued, Seconds(raw)), s.calls);
    if s.m.closed { assert Purge(s.m.pending, Seconds(raw)) == map[]; }
  }

  lemma SameLengths(s: System)
    requires FlightsKept(s.fates, s.calls, s.flights)
    ensures |s.fates| == |s.calls|
  {
  }

  lemma IssueKeeps(rules: Rules, s: System, b: Binding)
    requires Kept(rules, s) && b.challenge !in s.m.pending && ValidRequest(b.request)
      && |s.m.pending| < rules.maxPending && !s.m.closed && b.expiresAt == b.issuedAt + rules.ttl
    ensures Kept(rules, AfterIssue(s, b))
  {
    hide PendingKept, FlightsKept, ResultsKept, ValidRequest;
    IssuedPending(s.m.pending, s.ids, s.issued, s.fates, b);
    IssuedFlights(s.fates, s.calls, s.flights);
    IssuedResults(s.fates, s.calls, s.issued, s.results, b);
  }

  lemma ReserveKeeps(rules: Rules, s: System, tx: nat, challenge: string)
    requires Kept(rules, s) && challenge in s.ids && tx !in s.flights
    ensures Kept(rules, AfterReserve(s, tx, challenge, s.ids[challenge]))
  {
    hide FlightsKept, ResultsKept, IssuedWell;
    var i := s.ids[challenge];
    assert i < |s.fates| && s.fates[i].Pending? && challenge in s.m.pending;
    hide PendingKept;
    SameLengths(s);
    ReservedPending(s.m.pending, s.ids, s.issued, s.fates, challenge);
    ReservedFlights(s.fates, s.calls, s.flights, tx, i);
    MovedResults(s.fates, s.calls, s.issued, s.results, s.fates[i := Reserved], s.calls);
  }

  lemma FlightAt(s: System, tx: nat)
    requires FlightsKept(s.fates, s.calls, s.flights) && tx in s.flights
    ensures var i := s.flights[tx].issue;
      i < |s.fates| == |s.calls| && s.fates[i].Reserved? && s.calls[i] == (if s.flights[tx].phase.Taken? then 0 else 1)
  {
  }

  lemma EndKeeps(rules: Rules, s: System, tx: nat)
    requires Kept(rules, s) && tx in s.flights
    ensures Kept(rules, Ended(s, tx, s.flights[tx].issue))
  {
    hide FlightsKept, ResultsKept, IssuedWell, PendingKept;
    var i := s.flights[tx].issue;
    FlightAt(s, tx);
    EndedPending(s.m.pending, s.ids, s.issued, s.fates, i);
    EndedFlights(s.fates, s.calls, s.flights, tx);
    MovedResults(s.fates, s.calls, s.issued, s.results, s.fates[i := Finished], s.calls);
  }

  lemma AdvanceKeeps(rules: Rules, s: System, tx: nat, phase: Phase, calls: seq<nat>)
    requires Kept(rules, s) && tx in s.flights && !phase.Taken?
    requires calls == (if s.flights[tx].phase.Taken? then AddCall(s.calls, s.flights[tx].issue) else s.calls)
    ensures Kept(rules, s.(calls := calls, flights := s.flights[tx := Flight(s.flights[tx].issue, phase)]))
  {
    hide FlightsKept, ResultsKept, IssuedWell, PendingKept;
    FlightAt(s, tx);
    assert calls == s.calls[s.flights[tx].issue := 1];
    AdvancedFlights(s.fates, s.calls, s.flights, tx, phase, calls);
    MovedResults(s.fates, s.calls, s.issued, s.results, s.fates, calls);
  }

  lemma FinishKeeps(rules: Rules, s: System, tx: nat, credentialID: string, raw: int)
    requires Kept(rules, s) && tx in s.flights && s.flights[tx].phase.Proved? && s.flights[tx].issue < |s.issued|
    ensures Kept(rules, Step(rules, s, FinishOne(tx, credentialID, raw)))
  {
    hide FlightsKept, ResultsKept, IssuedWell, PendingKept, Trusted;
    var i := s.flights[tx].issue;
    var (m, r) := Finish(s.m, s.issued[i], credentialID, raw);
    FlightAt(s, tx);
    EndKeeps(rules, s, tx);
    if r.Ok? {
      ResultAdded(s.fates, s.calls, s.issued, s.results, i, r.value);
    }
  }

  lemma BoundRequestValid(rules: Rules, s: System, i: nat)
    requires Kept(rules, s) && i < |s.issued|
    ensures ValidRequest(s.issued[i].request)
  {
    hide PendingKept, FlightsKept, ResultsKept, ValidRequest;
  }

  lemma CloseKeeps(rules: Rules, s: System)
    requires Kept(rules, s)
    ensures Kept(rules, s.(m := Close(s.m), ids := map[], fates := DiscardedFates(s.fates)))
  {
    hide FlightsKept, ResultsKept, IssuedWell;
    var t := s.(m := Close(s.m), ids := map[], fates := DiscardedFates(s.fates));
    assert PendingKept(t.m.pending, t.ids, t.issued, t.fates);
    hide PendingKept;
    SameLengths(s);
    MovedFlights(s.fates, s.calls, s.flights, t.fates);
    MovedResults(s.fates, s.calls, s.issued, s.results, t.fates, s.calls);
  }

  lemma IssueIsFresh(rules: Rules, s: System, q: Request, raw: int, draws: seq<Option<Bytes32>>)
    requires ValidRequest(q) && ReadClock(s.m, raw) && Issue(rules, s.m, q, raw, draws).1.Ok?
    ensures var b, p := Issue(rules, s.m, q, raw, draws).1.value, AfterPurge(s, raw);
      b.challenge !in p.m.pending && b.request == q && |p.m.pending| < rules.maxPending && !p.m.closed
        && b.expiresAt == b.issuedAt + rules.ttl
  {
    hide ValidRequest, Trusted, Purge;
    DrawIsFresh(Purge(s.m.pending, Seconds(raw)), draws, ATTEMPTS);
  }

  lemma {:induction false} DrawIsFresh(pending: map<string, Binding>, draws: seq<Option<Bytes32>>, attempts: nat)
    ensures var r := Draw(pending, draws, attempts); r.Ok? ==> r.value !in pending
  {
    if attempts > 0 && draws != [] { DrawIsFresh(pending, draws[1..], attempts - 1); }
  }

  lemma ReserveIsPending(s: System, challenge: string, raw: int)
    requires s.ids.Keys == s.m.pending.Keys && ReadClock(s.m, raw) && Reserve(s.m, challenge, raw).1.Ok?
    ensures challenge in s.ids && challenge in AfterPurge(s, raw).ids
      && AfterPurge(s, raw).ids[challenge] == s.ids[challenge]
    ensures AfterPurge(s, raw).flights == s.flights
  {
    hide Trusted, Due, PurgedFates;
  }

  /** A pending challenge can be reserved at any readable time within its lifetime from when it was
      issued, and only then; nothing else can. */
  lemma ReservedExactly(rules: Rules, s: System, challenge: string, raw: int)
    requires Kept(rules, s)
    ensures forall i :: 0 <= i < |s.fates| && s.fates[i].Pending? && s.issued[i].challenge == challenge ==>
              (Reserve(s.m, challenge, raw).1 == Ok(s.issued[i])
               <==> !s.m.closed && Readable(s.m.lastNow, raw)
                    && raw / 1_000_000_000 < s.issued[i].issuedAt + rules.ttl)
    ensures Reserve(s.m, challenge, raw).1.Ok? ==>
              exists i :: 0 <= i < |s.fates| && s.fates[i].Pending? && s.issued[i].challenge == challenge
                && Reserve(s.m, challenge, raw).1.value == s.issued[i]
  {
    hide Readable, FlightsKept, ResultsKept, ValidRequest, Reserve;
    TakenExactly(s.m, challenge, raw);
    if challenge in s.ids {
      assert forall i :: 0 <= i < |s.fates| && s.fates[i].Pending? && s.issued[i].challenge == challenge
                         ==> i == s.ids[challenge];
    }
    if Reserve(s.m, challenge, raw).1.Ok? {
      var i := s.ids[challenge];
      assert s.fates[i].Pending? && s.issued[i] == s.m.pending[challenge];
    }
  }

  lemma IssueOneKeeps(rules: Rules, s: System, q: Request, raw: int, draws: seq<Option<Bytes32>>)
    requires Kept(rules, s)
    ensures Kept(rules, Step(rules, s, IssueOne(q, raw, draws)))
  {
    hide AfterPurge, AfterIssue, Kept, ValidRequest, ReadClock, Issue;
    if ValidRequest(q) && ReadClock(s.m, raw) {
      PurgeKeeps(rules, s, raw);
      var r := Issue(rules, s.m, q, raw, draws).1;
      if r.Ok? {
        IssueIsFresh(rules, s, q, raw, draws);
        IssueKeeps(rules, AfterPurge(s, raw), r.value);
      }
    }
  }

  lemma SameKeys(rules: Rules, s: System)
    requires Kept(rules, s)
    ensures s.ids.Keys == s.m.pending.Keys
  {
    hide FlightsKept, ResultsKept, IssuedWell;
  }

  lemma ReserveOneKeeps(rules: Rules, s: System, tx: nat, challenge: string, raw: int)
    requires Kept(rules, s)
    ensures Kept(rules, Step(rules, s, ReserveOne(tx, challenge, raw)))
  {
    hide AfterPurge, AfterReserve, Kept, ReadClock, Reserve;
    SameKeys(rules, s);
    if tx !in s.flights && ReadClock(s.m, raw) {
      PurgeKeeps(rules, s, raw);
      if Reserve(s.m, challenge, raw).1.Ok? {
        ReserveIsPending(s, challenge, raw);
        ReserveKeeps(rules, AfterPurge(s, raw), tx, challenge);
      }
    }
  }

  lemma CallVerifierKeeps(rules: Rules, s: System, tx: nat, assertion: string)
    requires Kept(rules, s)
    ensures Kept(rules, Step(rules, s, CallVerifier(tx, assertion)))
  {
    hide Ended, Kept, GoodAssertion, AddCall;
    if tx in s.flights && s.flights[tx].phase.Taken? {
      if GoodAssertion(assertion) {
        AdvanceKeeps(rules, s, tx, Verifying, AddCall(s.calls, s.flights[tx].issue));
      } else { EndKeeps(rules, s, tx); }
    }
  }

  lemma VerifierReturnsKeeps(rules: Rules, s: System, tx: nat, credential: Option<string>)
    requires Kept(rules, s)
    ensures Kept(rules, Step(rules, s, VerifierReturns(tx, credential)))
  {
    hide Ended, Kept, GoodCredential;
    if tx in s.flights && s.flights[tx].phase.Verifying? {
      if credential.Some? && GoodCredential(credential.value) {
        AdvanceKeeps(rules, s, tx, Proved(credential.value), s.calls);
      } else { EndKeeps(rules, s, tx); }
    }
  }

  /** Every step of every interleaving, including a verifier that calls back into the manager, keeps
      each issuance in exactly one place, runs its verifier at most once and returns for it at most
      one result, which is as it was bound; and never more than MaxPending challenges are pending. */
  lemma StepKeeps(rules: Rules, s: System, e: Event)
    requires Kept(rules, s)
    ensures Kept(rules, Step(rules, s, e))
  {
    match e
    case IssueOne(q, raw, draws) =>
      hide Kept, Step;
      IssueOneKeeps(rules, s, q, raw, draws);
    case ReserveOne(tx, challenge, raw) =>
      hide Kept, Step;
      ReserveOneKeeps(rules, s, tx, challenge, raw);
    case CallVerifier(tx, assertion) =>
      hide Kept, Step;
      CallVerifierKeeps(rules, s, tx, assertion);
    case VerifierReturns(tx, credential) =>
      hide Kept, Step;
      VerifierReturnsKeeps(rules, s, tx, credential);
    case FinishOne(tx, credentialID, raw) =>
      hide Kept;
      if tx in s.flights && s.flights[tx].phase.Proved? && s.flights[tx].issue < |s.issued| {
        FinishKeeps(rules, s, tx, credentialID, raw);
      }
    case CloseAll =>
      hide Kept;
      CloseKeeps(rules, s);
  }

  // ---- every run ----------------------------------------------------------------------------------------

  function Run(rules: Rules, s: System, events: seq<Event>): System
    decreases |events|
  {
    if events == [] then s else Run(rules, Step(rules, s, events[0]), events[1..])
  }

  lemma {:induction false} RunKeeps(rules: Rules, s: System, events: seq<Event>)
    requires Kept(rules, s)
    ensures Kept(rules, Run(rules, s, events))
    decreases |events|
  {
    hide Kept, Step;
    if events != [] {
      StepKeeps(rules, s, events[0]);
      RunKeeps(rules, Step(rules, s, events[0]), events[1..]);
    }
  }

  /** Fates only move forward. */
  predicate Forward(a: Fate, b: Fate) {
    a == b || (a.Pending? && !b.Pending?) || (a.Reserved? && b.Finished?)
  }

  predicate History(s: System, t: System) {
    s.issued <= t.issued && |s.fates| <= |t.fates|
      && (forall i :: 0 <= i < |s.fates| ==> Forward(s.fates[i], t.fates[i]))
    && s.results <= t.results && (s.m.closed ==> t.m.closed && t.results == s.results && t.issued == s.issued)
  }

  lemma PurgeIsHistory(s: System, raw: int)
    requires |s.fates| == |s.issued|
    ensures History(s, AfterPurge(s, raw))
  {
    hide Due, Purge;
  }

  lemma IssueIsHistory(s: System, b: Binding)
    requires !s.m.closed
    ensures History(s, AfterIssue(s, b))
  {
  }

  lemma ReserveIsHistory(s: System, tx: nat, challenge: string, i: nat)
    requires i < |s.fates| ==> s.fates[i].Pending?
    ensures History(s, AfterReserve(s, tx, challenge, i))
  {
  }

  lemma EndIsHistory(s: System, tx: nat, i: nat)
    requires i < |s.fates| ==> s.fates[i].Reserved?
    ensures History(s, Ended(s, tx, i))
  {
  }

  lemma FinishIsHistory(s: System, tx: nat, i: nat, m: Manager, results: seq<(nat, Verified)>)
    requires i < |s.fates| ==> s.fates[i].Reserved?
    requires m.closed == s.m.closed && s.results <= results && (s.m.closed ==> results == s.results)
    ensures History(s, Ended(s, tx, i).(m := m, results := results))
  {
  }

  lemma StepIsHistory(rules: Rules, s: System, e: Event)
    requires Kept(rules, s)
    ensures History(s, Step(rules, s, e))
  {
    hide ValidRequest, Trusted, Draw, ResultsKept, IssuedWell, AfterPurge, AfterIssue, AfterReserve, Ended,
      FlightsKept, History, PendingKept;
    NoHistory(s);
    PlacesOf(rules, s);
    match e
    case IssueOne(q, raw, draws) =>
      PurgeIsHistory(s, raw);
      OpenAfterPurge(s, raw);
      if ValidRequest(q) && ReadClock(s.m, raw) && Issue(rules, s.m, q, raw, draws).1.Ok? {
        var b := Issue(rules, s.m, q, raw, draws).1.value;
        IssueIsHistory(AfterPurge(s, raw), b);
        HistoryTransitive(s, AfterPurge(s, raw), AfterIssue(AfterPurge(s, raw), b));
      }
    case ReserveOne(tx, challenge, raw) =>
      PurgeIsHistory(s, raw);
      if tx !in s.flights && ReadClock(s.m, raw) && Reserve(s.m, challenge, raw).1.Ok? && challenge in s.ids {
        PurgeKeeps(rules, s, raw);
        ReserveIsPending(s, challenge, raw);
        PlacesOf(rules, AfterPurge(s, raw));
        ReserveIsHistory(AfterPurge(s, raw), tx, challenge, s.ids[challenge]);
        HistoryTransitive(s, AfterPurge(s, raw), AfterReserve(AfterPurge(s, raw), tx, challenge, s.ids[challenge]));
      }
    case CallVerifier(tx, assertion) =>
      if tx in s.flights {
        EndIsHistory(s, tx, s.flights[tx].issue);
        FlightsAlone(s, AddCall(s.calls, s.flights[tx].issue), s.flights[tx := Flight(s.flights[tx].issue, Verifying)]);
      }
    case VerifierReturns(tx, credential) =>
      if tx in s.flights {
        EndIsHistory(s, tx, s.flights[tx].issue);
        if credential.Some? {
          FlightsAlone(s, s.calls, s.flights[tx := Flight(s.flights[tx].issue, Proved(credential.value))]);
        }
      }
    case FinishOne(tx, credentialID, raw) =>
      if tx in s.flights && s.flights[tx].issue < |s.issued| {
        var i := s.flights[tx].issue;
        var (m, r) := Finish(s.m, s.issued[i], credentialID, raw);
        FinishIsHistory(s, tx, i, m, if r.Ok? then s.results + [(i, r.value)] else s.results);
      }
    case CloseAll => CloseIsHistory(s);
  }

  lemma PlacesOf(rules: Rules, s: System)
    requires Kept(rules, s)
    ensures |s.fates| == |s.issued| && s.ids.Keys == s.m.pending.Keys
    ensures forall c :: c in s.ids && s.ids[c] < |s.fates| ==> s.fates[s.ids[c]].Pending?
    ensures forall tx :: tx in s.flights && s.flights[tx].issue < |s.fates| ==> s.fates[s.flights[tx].issue].Reserved?
  {
    hide ResultsKept, IssuedWell, InFlight;
  }

  lemma OpenAfterPurge(s: System, raw: int)
    ensures AfterPurge(s, raw).m.closed == s.m.closed
  {
  }

  lemma FlightsAlone(s: System, calls: seq<nat>, flights: map<nat, Flight>)
    ensures History(s, s.(calls := calls, flights := flights))
  {
  }

  lemma CloseIsHistory(s: System)
    ensures History(s, s.(m := Close(s.m), ids := map[], fates := DiscardedFates(s.fates)))
  {
  }

  lemma HistoryTransitive(a: System, b: System, c: System)
    requires History(a, b) && History(b, c)
    ensures History(a, c)
  {
    forall i | 0 <= i < |a.fates| ensures Forward(a.fates[i], c.fates[i]) {
      assert Forward(a.fates[i], b.fates[i]) && Forward(b.fates[i], c.fates[i]);
    }
  }

  /** Issuances are never forgotten and their fates only move forward; and once the manager is closed,
      no run of consumers that were in flight returns anything, or issues anything, any more. */
  lemma {:induction false} RunIsHistory(rules: Rules, s: System, events: seq<Event>)
    requires Kept(rules, s)
    ensures History(s, Run(rules, s, events))
    decreases |events|
  {
    hide Kept, Step, History;
    if events == [] {
      NoHistory(s);
    } else {
      StepKeeps(rules, s, events[0]);
      StepIsHistory(rules, s, events[0]);
      RunIsHistory(rules, Step(rules, s, events[0]), events[1..]);
      HistoryTransitive(s, Step(rules, s, events[0]), Run(rules, s, events));
    }
  }

  lemma NoHistory(s: System)
    ensures History(s, s)
  {
  }

  // ---- conservation ---------------------------------------------------------------------------------------

  function Count(fates: seq<Fate>, f: Fate): nat {
    if fates == [] then 0 else Count(fates[..|fates| - 1], f) + (if fates[|fates| - 1] == f then 1 else 0)
  }

  lemma {:induction false} FatesAddUp(fates: seq<Fate>)
    ensures Count(fates, Pending) + Count(fates, Reserved) + Count(fates, Finished)
          + Count(fates, Purged) + Count(fates, Discarded) == |fates|
  {
    if fates != [] { FatesAddUp(fates[..|fates| - 1]); }
  }

  lemma WithoutOne<K>(m: map<K, nat>, k: K)
    requires k in m
    ensures |m| == |m - {k}| + 1
  {
    assert m.Keys == (m - {k}).Keys + {k};
    assert |m| == |m.Keys| && |m - {k}| == |(m - {k}).Keys|;
  }

  predicate Places<K>(places: map<K, nat>, fates: seq<Fate>, f: Fate) {
    (forall k :: k in places ==> places[k] < |fates| && fates[places[k]] == f)
    && (forall a, b :: a in places && b in places && places[a] == places[b] ==> a == b)
    && forall i :: 0 <= i < |fates| && fates[i] == f ==> exists k :: k in places && places[k] == i
  }

  lemma PlacesWithout<K>(places: map<K, nat>, fates: seq<Fate>, f: Fate, k: K)
    requires fates != [] && Places(places, fates, f) && k in places && places[k] == |fates| - 1
    ensures Places(places - {k}, fates[..|fates| - 1], f)
  {
    var fewer, rest := fates[..|fates| - 1], places - {k};
    forall i | 0 <= i < |fewer| && fewer[i] == f ensures exists x :: x in rest && rest[x] == i {
      assert fates[i] == f;
      var x :| x in places && places[x] == i;
      assert x in rest;
    }
    forall x | x in rest ensures rest[x] < |fewer| { assert places[x] != places[k]; }
  }

  lemma PlacesElsewhere<K>(places: map<K, nat>, fates: seq<Fate>, f: Fate)
    requires fates != [] && Places(places, fates, f) && fates[|fates| - 1] != f
    ensures Places(places, fates[..|fates| - 1], f)
  {
    var fewer := fates[..|fates| - 1];
    forall i | 0 <= i < |fewer| && fewer[i] == f
      ensures exists k :: k in places && places[k] == i
    {
      assert fates[i] == f;
    }
    forall k | k in places ensures places[k] < |fewer| && fewer[places[k]] == f { assert places[k] != |fates| - 1; }
  }

  lemma PlaceOf<K>(places: map<K, nat>, fates: seq<Fate>, f: Fate, i: nat) returns (k: K)
    requires Places(places, fates, f) && i < |fates| && fates[i] == f
    ensures k in places && places[k] == i
  {
    k :| k in places && places[k] == i;
  }

  lemma NoPlaces<K>(places: map<K, nat>, f: Fate)
    requires Places(places, [], f)
    ensures |places| == 0
  {
    assert places.Keys == {};
    assert |places| == |places.Keys|;
  }

  /** A map whose values are exactly the places with a fate, each once, has as many entries. */
  lemma {:induction false} PlacesCount<K>(places: map<K, nat>, fates: seq<Fate>, f: Fate)
    requires Places(places, fates, f)
    ensures |places| == Count(fates, f)
    decreases |fates|
  {
    hide Places;
    if fates == [] {
      NoPlaces(places, f);
    } else if fates[|fates| - 1] == f {
      var k := PlaceOf(places, fates, f, |fates| - 1);
      PlacesWithout(places, fates, f, k);
      PlacesCount(places - {k}, fates[..|fates| - 1], f);
      WithoutOne(places, k);
    } else {
      PlacesElsewhere(places, fates, f);
      PlacesCount(places, fates[..|fates| - 1], f);
    }
  }

  function Issues(flights: map<nat, Flight>): map<nat, nat> { map tx | tx in flights :: flights[tx].issue }

  /** Conservation: the challenges ever issued are those pending, those in flight, and those finished,
      purged or discarded. */
  lemma Conservation(rules: Rules, s: System)
    requires Kept(rules, s)
    ensures |s.issued| == |s.m.pending| + |s.flights| + Count(s.fates, Finished)
            + Count(s.fates, Purged) + Count(s.fates, Discarded)
  {
    hide ResultsKept, IssuedWell;
    FatesAddUp(s.fates);
    PendingAreCounted(s.m.pending, s.ids, s.issued, s.fates);
    FlightsAreCounted(s.fates, s.calls, s.flights);
  }

  lemma PendingAreCounted(pending: map<string, Binding>, ids: map<string, nat>, issued: seq<Binding>, fates: seq<Fate>)
    requires PendingKept(pending, ids, issued, fates)
    ensures |pending| == Count(fates, Pending)
  {
    forall a, b | a in ids && b in ids && ids[a] == ids[b]
      ensures a == b
    {
      assert issued[ids[a]].challenge == a && issued[ids[b]].challenge == b;
    }
    PlacesCount(ids, fates, Pending);
    assert |ids| == |ids.Keys| && |pending| == |pending.Keys|;
  }

  lemma FlightsAreCounted(fates: seq<Fate>, calls: seq<nat>, flights: map<nat, Flight>)
    requires FlightsKept(fates, calls, flights)
    ensures |flights| == Count(fates, Reserved)
  {
    var places := Issues(flights);
    forall i | 0 <= i < |fates| && fates[i] == Reserved ensures exists tx :: tx in places && places[tx] == i {
      assert InFlight(flights, i);
      var tx :| tx in flights && flights[tx].issue == i;
      assert places[tx] == i;
    }
    PlacesCount(places, fates, Reserved);
    assert places.Keys == flights.Keys;
    assert |places| == |places.Keys| && |flights| == |flights.Keys|;
  }

  // ---- how a consumer moves -------------------------------------------------------------------------------

  /** One consumer before and after a step: it was in flight before it, for the same issuance, and is proved
      only by its verifier's credential; or it has just taken a challenge within that challenge's lifetime. */
  predicate MovesAs(rules: Rules, s: System, t: System, e: Event, tx: nat)
    requires tx in t.flights
  {
    t.flights[tx].issue < |s.issued|
    && if tx in s.flights then
         t.flights[tx].issue == s.flights[tx].issue
         && (t.flights[tx].phase.Proved? ==>
               t.flights[tx].phase == s.flights[tx].phase
               || e == VerifierReturns(tx, Some(t.flights[tx].phase.credential)))
       else
         e.ReserveOne? && e.tx == tx && t.flights[tx].phase.Taken?
         && s.issued[t.flights[tx].issue].challenge == e.challenge
         && e.raw / 1_000_000_000 < s.issued[t.flights[tx].issue].issuedAt + rules.ttl
  }

  lemma FlightsMove(rules: Rules, s: System, e: Event, tx: nat)
    requires Kept(rules, s)
    ensures var t := Step(rules, s, e); s.issued <= t.issued && (tx in t.flights ==> MovesAs(rules, s, t, e, tx))
  {
    if tx in s.flights { FlightIssue(rules, s, tx); }
    hide Kept, Step;
    match e
    case ReserveOne(x, challenge, raw) => ReserveMoves(rules, s, x, challenge, raw, tx);
    case IssueOne(q, raw, draws) => IssueLeaves(rules, s, q, raw, draws);
    case CallVerifier(x, assertion) => CallMoves(rules, s, x, assertion, tx);
    case VerifierReturns(x, credential) => ReturnMoves(rules, s, x, credential, tx);
    case FinishOne(x, id, raw) => FinishMoves(rules, s, x, id, raw, tx);
    case CloseAll => CloseLeaves(rules, s);
  }

  lemma CloseLeaves(rules: Rules, s: System)
    ensures var t := Step(rules, s, CloseAll); s.issued == t.issued && t.flights == s.flights
  {
    hide DiscardedFates;
  }

  lemma IssueLeaves(rules: Rules, s: System, q: Request, raw: int, draws: seq<Option<Bytes32>>)
    ensures var t := Step(rules, s, IssueOne(q, raw, draws)); s.issued <= t.issued && t.flights == s.flights
  {
    hide Issue, ReadClock, Purge, PurgedFates, KeptIDs, ValidRequest;
  }

  lemma CallMoves(rules: Rules, s: System, x: nat, assertion: string, tx: nat)
    requires tx in s.flights ==> s.flights[tx].issue < |s.issued|
    ensures var e := CallVerifier(x, assertion); var t := Step(rules, s, e);
      s.issued == t.issued && (tx in t.flights ==> MovesAs(rules, s, t, e, tx))
  {
    hide GoodAssertion, SetFate, AddCall;
  }

  lemma ReturnMoves(rules: Rules, s: System, x: nat, credential: Option<string>, tx: nat)
    requires tx in s.flights ==> s.flights[tx].issue < |s.issued|
    ensures var e := VerifierReturns(x, credential); var t := Step(rules, s, e);
      s.issued == t.issued && (tx in t.flights ==> MovesAs(rules, s, t, e, tx))
  {
    hide GoodCredential, SetFate;
  }

  lemma FinishMoves(rules: Rules, s: System, x: nat, id: string, raw: int, tx: nat)
    requires tx in s.flights ==> s.flights[tx].issue < |s.issued|
    ensures var e := FinishOne(x, id, raw); var t := Step(rules, s, e);
      s.issued == t.issued && (tx in t.flights ==> MovesAs(rules, s, t, e, tx))
  {
    hide Finish, SetFate;
  }

  lemma ReserveMoves(rules: Rules, s: System, x: nat, challenge: string, raw: int, tx: nat)
    requires Kept(rules, s) && (tx in s.flights ==> s.flights[tx].issue < |s.issued|)
    ensures var e := ReserveOne(x, challenge, raw); var t := Step(rules, s, e);
      s.issued == t.issued && (tx in t.flights ==> MovesAs(rules, s, t, e, tx))
  {
    hide Reserve, Readable, FlightsKept, ResultsKept, ValidRequest, Trusted, Purge, PurgedFates, KeptIDs, SetFate;
    TakenExactly(s.m, challenge, raw);
  }

  lemma FlightIssue(rules: Rules, s: System, tx: nat)
    requires Kept(rules, s) && tx in s.flights
    ensures s.flights[tx].issue < |s.issued|
  {
    hide ResultsKept, ValidRequest;
  }
}
