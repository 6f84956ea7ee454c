/** A store that its own calls leave unreadable: two requests, the second created when the first is
    already due. */
module ApprovalExample {
  import opened Text
  import opened CivilTime
  import opened ApprovalRecord
  import opened ApprovalStore
  import opened ApprovalRuns
  import Json
  import Manifest

  predicate Fits(rules: Rules, p: Manifest.Proposal, now: int) {
    p.policyVersion == rules.policyVersion && p.revocationEpoch == rules.revocationEpoch
    && p.createdAt.seconds <= now < p.expiresAt.seconds && p.expiresAt.seconds - p.createdAt.seconds <= rules.maxTTL
  }

  function Encoded(hash: Hasher, p: Manifest.Proposal): string {
    if Manifest.ValidProposal(p) && Manifest.Build(hash, p).Ok? then Manifest.Build(hash, p).value.encoding else ""
  }

  /** Create accepts every valid proposal that fits the rules and the clock, under a fresh identifier. */
  lemma CreateSucceeds(hash: Hasher, rules: Rules, m: Machine, p: Manifest.Proposal, now: int)
    requires Manifest.ValidProposal(p) && Fits(rules, p, now) && p.requestID !in m.mem.records
      && |m.mem.records| < rules.maxRecords
    requires Usable(m.mem) && TrustedReading(m.mem, now) && m.disk.temp == None && m.mem.generation < MAX_GENERATION
    ensures var (m', r) := Apply(hash, rules, m, Create(Encoded(hash, p)), now, NoFault);
      r.Ok? && Usable(m'.mem) && m'.disk.temp == None && m'.mem.lastNow == now
        && m'.mem.generation == m.mem.generation + 1
      && m'.mem.records.Keys == m.mem.records.Keys + {p.requestID}
      && m'.mem.records[p.requestID].state == Pending && m'.mem.records[p.requestID].expiresAt == p.expiresAt.seconds
    ensures CreatePlan(hash, rules, m.mem.records, Encoded(hash, p), now).Write?
  {
    hide Manifest.ValidProposal, EncodeSnapshot, TrustedReading, FourDigitYear, CreatePlan, Encoded, Fits;
    CreateIsPlanned(hash, rules, m.mem.records, p, now);
  }

  lemma CreateIsPlanned(hash: Hasher, rules: Rules, records: map<string, Record>, p: Manifest.Proposal, now: int)
    requires Manifest.ValidProposal(p) && Fits(rules, p, now) && p.requestID !in records && |records| < rules.maxRecords
    ensures var plan := CreatePlan(hash, rules, records, Encoded(hash, p), now);
      plan.Write? && plan.answer.Ok? && plan.answer.value.state == Pending
      && plan.answer.value.expiresAt == p.expiresAt.seconds && plan.next == records[p.requestID := plan.answer.value]
  {
    hide Manifest.Parse, Manifest.Build, Manifest.ValidProposal;
    Manifest.ParseOfBuild(hash, p);
    Manifest.BuildNeverFails(hash, p);
  }

  lemma KeysCount(records: map<string, Record>, id: string)
    requires records.Keys == {id}
    ensures |records| == 1
  {
    assert |records| == |records.Keys|;
  }

  /** Two creates that both succeed, after which the state file can never be opened. */
  lemma SecondCreateLosesTheStore(hash: Hasher, rules: Rules, p: Manifest.Proposal, q: Manifest.Proposal)
    requires Manifest.ValidProposal(p) && Manifest.ValidProposal(q) && p.requestID != q.requestID
    requires rules.maxRecords >= 2 && Fits(rules, p, p.createdAt.seconds) && Fits(rules, q, q.createdAt.seconds)
    requires ZERO_TIME <= p.createdAt.seconds && p.expiresAt.seconds <= q.createdAt.seconds
    ensures var start := Machine(Fresh(), EmptyDisk());
      var (one, first) := Apply(hash, rules, start, Create(Encoded(hash, p)), p.createdAt.seconds, NoFault);
      var (two, second) := Apply(hash, rules, one, Create(Encoded(hash, q)), q.createdAt.seconds, NoFault);
      Open(hash, rules, EmptyDisk()) == Ok(Fresh()) && first.Ok? && second.Ok?
        && Open(hash, rules, two.disk) == Err(Corrupt)
  {
    hide Manifest.ValidProposal, Apply, FourDigitYear, Kept, Written, Encoded, CreatePlan, Reloadable;
    var start := Machine(Fresh(), EmptyDisk());
    YearsOf(p);
    YearsOf(q);
    EmptyIsKept(hash, rules);
    KeptAsBefore(hash, rules, World(None, EmptyDisk()), [Blank()], World(Some(Fresh()), EmptyDisk()));
    CreateSucceeds(hash, rules, start, p, p.createdAt.seconds);
    var one := Apply(hash, rules, start, Create(Encoded(hash, p)), p.createdAt.seconds, NoFault).0;
    KeysCount(one.mem.records, p.requestID);
    var snaps := CallKeeps(hash, rules, start, [Blank()], Create(Encoded(hash, p)), p.createdAt.seconds, NoFault);
    CreateSucceeds(hash, rules, one, q, q.createdAt.seconds);
    DueStaysBehind(hash, rules, one, snaps, Encoded(hash, q), q.createdAt.seconds, p.requestID);
  }

  lemma DueStaysBehind(hash: Hasher, rules: Rules, m: Machine, snaps: seq<Snap>, raw: string, now: int, id: string)
    requires Admitted(m.mem, Create(raw), now) && CreatePlan(hash, rules, m.mem.records, raw, now).Write?
    requires Apply(hash, rules, m, Create(raw), now, NoFault).1.Ok?
    requires id in m.mem.records && m.mem.records[id].state.Pending? && m.mem.records[id].expiresAt <= now
    requires Kept(hash, rules, World(Some(m.mem), m.disk), snaps)
    ensures Open(hash, rules, Apply(hash, rules, m, Create(raw), now, NoFault).0.disk) == Err(Corrupt)
  {
    hide Apply, Kept, Open, CreatePlan;
    CommitReopensExactly(hash, rules, m, snaps, Create(raw), now, NoFault);
    assert Untouched(Create(raw), id, m.mem.records[id], now) && !Reloadable(m.mem.records[id], now);
  }

  lemma YearsOf(p: Manifest.Proposal)
    requires Manifest.ValidProposal(p)
    ensures FourDigitYear(p.createdAt.seconds)
  {
  }

  // ---- a concrete pair ------------------------------------------------------------------------

  function Update(): Manifest.RefUpdate {
    Manifest.RefUpdate("refs/heads/m", Manifest.ZERO_OBJECT_ID, seq(40, _ => '1'), false, false)
  }

  /** A request under identifier `id`, open from second n to second n + 10 of year 1. */
  function Request(id: string, n: nat): Manifest.Proposal {
    Manifest.Proposal(id, "g", "w", "o/r", Manifest.ExpectedRemote("o/r"), [Update()], "v", 0,
                      Manifest.Stamp(ZERO_TIME + n, 0, true), Manifest.Stamp(ZERO_TIME + n + 10, 0, true))
  }

  lemma SecondOfYearOne(n: nat)
    requires n < 60
    ensures FourDigitYear(ZERO_TIME + n)
  {
    var c := Civil(1, 1, 1, 0, 0, n);
    hide ToCivil;
    assert DaysBeforeYear(1) == 366;
    assert FromCivil(c) == ZERO_TIME + n;
    ToFromCivil(c);
  }

  lemma GoodUpdate()
    ensures Manifest.GoodRefs([Update()])
  {
    var u := Update();
    assert u.ref[11..] == ['m'];
    SplitOfPart(['m'], '/');
    assert Split(u.ref[11..], '/') == [['m']];
    assert u.ref[..11] == "refs/heads/";
    assert u.newSHA[0] != Manifest.ZERO_OBJECT_ID[0];
  }

  lemma GoodRepository()
    ensures Manifest.ValidRepository("o/r")
  {
    assert "o/r" == "o" + (['/'] + "r");
    SplitOfPart("r", '/');
    SplitOfConcat("o", '/', "r");
  }

  lemma RequestIsValid(id: string, n: nat)
    requires Manifest.ValidToken(id, 128) && 0 < n < 50
    ensures Manifest.ValidProposal(Request(id, n))
  {
    hide FourDigitYear, Manifest.GoodRefs, Manifest.ValidRepository;
    SecondOfYearOne(n);
    SecondOfYearOne(n + 10);
    GoodUpdate();
    GoodRepository();
  }

  /** So the reload theorem's condition cannot be dropped: with these two requests it fails. */
  lemma TheStoreCanBeLost(hash: Hasher)
    ensures var p, q, rules := Request("a", 1), Request("b", 20), Rules("v", 0, 60, 2);
      ValidRules(rules) && Manifest.ValidProposal(p) && Manifest.ValidProposal(q)
      && var start := Machine(Fresh(), EmptyDisk());
         var (one, first) := Apply(hash, rules, start, Create(Encoded(hash, p)), p.createdAt.seconds, NoFault);
         var (two, second) := Apply(hash, rules, one, Create(Encoded(hash, q)), q.createdAt.seconds, NoFault);
         first.Ok? && second.Ok? && Open(hash, rules, two.disk) == Err(Corrupt)
  {
    hide Apply, Open, Encoded, Manifest.ValidProposal, FourDigitYear;
    RequestIsValid("a", 1);
    RequestIsValid("b", 20);
    assert "a"[0] != "b"[0];
    SecondCreateLosesTheStore(hash, Rules("v", 0, 60, 2), Request("a", 1), Request("b", 20));
  }

  // ---- the longest record -----------------------------------------------------------------------

  /** An identifier and an operator of the greatest length, the operator's name all escapes. */
  function LongID(): string { seq(128, _ => 'a') }

  function LongActor(): string { seq(128, _ => '<') }

  /** A request of that identifier, approved by that operator while it was open. */
  function LongRecord(hash: Hasher): Record {
    var p := Request(LongID(), 1);
    Record(LongID(), Encoded(hash, p), DigestOf(hash, p), Approved, p.createdAt.seconds, p.expiresAt.seconds,
      ZERO_TIME + 2, LongActor())
  }

  function DigestOf(hash: Hasher, p: Manifest.Proposal): string {
    if Manifest.ValidProposal(p) && Manifest.Build(hash, p).Ok? then Manifest.Build(hash, p).value.requestDigest else ""
  }

  lemma {:induction false} EscapedLength(n: nat)
    ensures |Json.Escape(seq(n, _ => '<'))| == 6 * n
  {
    if n > 0 {
      var s := seq(n, _ => '<');
      EscapedLength(n - 1);
      assert s[1..] == seq(n - 1, _ => '<');
      assert |Json.EscapeChar('<')| == 6;
    }
  }

  lemma LongManifest(hash: Hasher)
    ensures Manifest.ValidProposal(Request(LongID(), 1))
    ensures var r, m := LongRecord(hash), Manifest.Parse(hash, LongRecord(hash).manifest);
      m.Ok? && m.value.proposal == Request(LongID(), 1) && m.value.requestDigest == r.digest
  {
    hide Manifest.Parse, Manifest.ValidProposal, Manifest.Build, Manifest.ValidToken, LongID, LongActor, Request;
    var p := Request(LongID(), 1);
    LongTexts();
    RequestIsValid(LongID(), 1);
    Manifest.BuildNeverFails(hash, p);
    Manifest.ParseOfBuild(hash, p);
  }

  lemma LongRecordIsGood(hash: Hasher)
    ensures GoodRecord(hash, Rules("v", 0, 60, 2), LongID(), LongRecord(hash), ZERO_TIME + 2)
  {
    hide FourDigitYear, Manifest.Parse, Manifest.ValidProposal, Encoded, DigestOf, LongID, LongActor, Update,
      ValidScalar, Manifest.ExpectedRemote;
    LongTexts();
    LongManifest(hash);
    SecondOfYearOne(2);
  }

  lemma LongTexts()
    ensures Manifest.ValidToken(LongID(), 128) && ValidScalar(LongActor(), 128) && LongID() != "" && LongActor() != ""
  {
  }

  /** The greatest overhead is reached, and is more than the 1024 bytes the size limit sets aside. */
  lemma GreatestOverheadIsReached(hash: Hasher)
    ensures GoodRecord(hash, Rules("v", 0, 60, 2), LongID(), LongRecord(hash), ZERO_TIME + 2)
    ensures var r := LongRecord(hash);
      |Json.Encode(RecordValue(ToWire(r)))| == |r.manifest| + GREATEST_OVERHEAD && GREATEST_OVERHEAD > 1024
  {
    hide GoodRecord, ToWire, RecordValue, Json.Encode, Json.Escape, Encoded, DigestOf;
    LongRecordIsGood(hash);
    OverheadExactly(hash, Rules("v", 0, 60, 2), LongID(), LongRecord(hash), ZERO_TIME + 2);
    EscapedLength(128);
    PlainStates(Approved);
  }
}
