/** What every call of the approval store answers and leaves behind, in the terms of its caller. */
module ApprovalAnswers {
  import opened Text
  import opened CivilTime
  import opened ApprovalRecord
  import opened ApprovalStore
  import R = ApprovalRuns
  import Manifest

  // ---- the terms ------------------------------------------------------------------------------------

  /** A clock reading, in seconds, in the years 1 to 9999 and not behind the last one, if there was any. */
  predicate Readable(last: int, now: int) {
    31_622_400 <= now < 315_569_520_000 && (last == 31_622_400 || last <= now)
  }

  /** The store is open, unharmed, and believes the clock. */
  predicate Serves(m: Memory, now: int) { !m.closed && !m.poisoned && Readable(m.lastNow, now) }

  predicate Overdue(r: Record, now: int) { (r.state.Pending? || r.state.Approved?) && r.expiresAt <= now }

  /** The record expired at that instant; only a pending one loses its operator. */
  function Lapsed(r: Record, now: int): Record {
    Record(r.requestID, r.manifest, r.digest, Expired, r.createdAt, r.expiresAt, now,
      if r.state.Pending? then "" else r.actorID)
  }

  function Lapses(records: map<string, Record>, now: int): map<string, Record> {
    map id | id in records :: if Overdue(records[id], now) then Lapsed(records[id], now) else records[id]
  }

  predicate NoneOverdue(records: map<string, Record>, now: int) {
    forall id :: id in records ==> !Overdue(records[id], now)
  }

  /** There is room for one more generation, and no temporary file in the way. */
  predicate HasRoom(m: Machine) { m.mem.generation != 18_446_744_073_709_551_615 && m.disk.temp == None }

  /** The records are in memory under the next generation, and durable with no older file to come back. */
  predicate Committed(m: Machine, m': Machine, next: map<string, Record>, now: int) {
    m'.mem == Memory(next, m.mem.generation + 1, now, now, false, false)
    && m'.disk == Disk(Some(File(EncodeSnapshot(next, m.mem.generation + 1, now), true)), None, [])
  }

  /** Only the clock was read. */
  predicate OnlyRead(m: Machine, m': Machine, now: int) {
    m'.disk == m.disk && m'.mem == m.mem.(lastNow := now)
  }

  lemma ClockExactly(m: Memory, now: int)
    ensures TrustedReading(m, now) <==> Readable(m.lastNow, now)
  {
    hide FourDigitYear;
    FourDigitsExactly(now);
  }

  lemma LapsedIs(r: Record, now: int)
    ensures ExpireRecord(r, now) == Lapsed(r, now) && (Due(r, now) <==> Overdue(r, now))
  {
  }

  lemma LapsesAre(records: map<string, Record>, now: int)
    ensures AllExpired(records, now) == Lapses(records, now)
    ensures DueIDs(records, now) == set id | id in records && Overdue(records[id], now)
    ensures DueIDs(records, now) == {} <==> NoneOverdue(records, now)
  {
    hide Due, ExpireRecord, Overdue, Lapsed;
    forall id | id in records
      ensures ExpireRecord(records[id], now) == Lapsed(records[id], now)
        && (Due(records[id], now) <==> Overdue(records[id], now))
    {
      LapsedIs(records[id], now);
    }
    if NoneOverdue(records, now) { assert DueIDs(records, now) == {}; }
    if DueIDs(records, now) == {} {
      forall id | id in records ensures !Overdue(records[id], now) { assert id !in DueIDs(records, now); }
    }
  }

  // ---- faults ------------------------------------------------------------------------------------------

  /** What a fault of a persist comes to: nothing but a failure of the rename or after it poisons the store. */
  lemma PersistEnds(d: Disk, raw: string, fault: Fault)
    ensures var o := Persist(d, raw, fault).1;
      (o == Done <==> d.temp == None && fault == NoFault)
      && (o == Ended <==> d.temp == None && fault.Dies?)
      && (o == Failed(Poisoned) <==> d.temp == None && fault.Fails? && fault.phase in {Renaming, DirectorySyncing})
      && (o == Failed(Persistence)
          <==> d.temp != None
               || (fault.Fails? && fault.phase in {Creating, Writing, FileSyncing, Phase.Closing}))
  {
  }

  // ---- a write ----------------------------------------------------------------------------------------

  /** A commit that reports success committed; one without faults succeeds exactly if there is room; and one
      that fails keeps the records. */
  lemma CommitAnswers(m: Machine, next: map<string, Record>, now: int, fault: Fault)
    requires !m.mem.closed && !m.mem.poisoned && m.mem.lastNow == now
    ensures var (m', e) := Commit(m, next, now, fault);
      (e.None? ==> Committed(m, m', next, now))
      && (fault.NoFault? ==> (e.None? <==> HasRoom(m)))
      && (e.Some? ==> m'.mem.records == m.mem.records && m'.mem.generation == m.mem.generation
                      && m'.mem.observed == m.mem.observed)
      && (e.Some? ==> e.value.Capacity? || e.value.Persistence? || e.value.Poisoned? || e.value.Died?)
  {
    hide EncodeSnapshot;
  }

  /** The snapshot in memory is the one it was. */
  predicate SameSnapshot(m: Machine, m': Machine) {
    m'.mem.records == m.mem.records && m'.mem.generation == m.mem.generation && m'.mem.observed == m.mem.observed
  }

  lemma WriteAnswers(m: Machine, next: map<string, Record>, answer: Result<Record, Failure>, now: int, fault: Fault)
    requires !m.mem.closed && !m.mem.poisoned && m.mem.lastNow == now && (answer.Ok? || answer == Err(TimedOut))
    ensures var (m', r) := Carry(m, Write(next, answer), now, fault);
      (r.Ok? ==> answer.Ok? && r.value == ARecord(answer.value) && Committed(m, m', next, now))
      && (r == Err(TimedOut) ==> answer.Err? && Committed(m, m', next, now))
      && (r.Err? && r.error != TimedOut ==> SameSnapshot(m, m'))
      && (fault.NoFault? && answer.Ok? ==> (r.Ok? <==> HasRoom(m)))
      && (r.Err? ==> r.error.TimedOut? || r.error.Capacity? || r.error.Persistence? || r.error.Poisoned?
                     || r.error.Died?)
  {
    CommitAnswers(m, next, now, fault);
    var (c, e) := Commit(m, next, now, fault);
    assert e.None? ==> Committed(m, c, next, now);
    var (m', r) := Carry(m, Write(next, answer), now, fault);
    assert m' == c;
    assert r.Ok? ==> e.None?;
  }

  lemma Served(hash: Hasher, rules: Rules, m: Machine, op: Op, now: int, fault: Fault)
    ensures var (m', r) := Apply(hash, rules, m, op, now, fault);
      !Serves(m.mem, now) ==> m' == m && r.Err? && r.error != TimedOut
  {
    hide Readable, Commit, ValidScalar, Carry;
    ClockExactly(m.mem, now);
    hide TrustedReading;
  }

  // ---- Get ---------------------------------------------------------------------------------------------

  /** Get answers with the record as it is, and changes nothing; or, once it is overdue, with the record
      expired at this instant, and has committed just that. */
  lemma GetAnswers(hash: Hasher, rules: Rules, m: Machine, id: string, now: int, fault: Fault)
    ensures var (m', r) := Apply(hash, rules, m, Get(id), now, fault); var records := m.mem.records;
      (r.Ok? ==>
         Serves(m.mem, now) && id in records
         && if Overdue(records[id], now) then
              r.value == ARecord(Lapsed(records[id], now))
              && Committed(m, m', records[id := Lapsed(records[id], now)], now)
            else r.value == ARecord(records[id]) && OnlyRead(m, m', now))
      && (r.Err? && r.error != TimedOut ==> SameSnapshot(m, m')) && r != Err(TimedOut)
      && (fault.NoFault? ==>
            (r.Ok? <==> Serves(m.mem, now) && id in records && (Overdue(records[id], now) ==> HasRoom(m))))
      && (r == Err(NotFound) <==> Serves(m.mem, now) && id !in records)
  {
    hide Readable, Commit, ExpireRecord, Due, Lapsed, Overdue, EncodeSnapshot;
    ClockExactly(m.mem, now);
    hide TrustedReading;
    var m1 := m.(mem := m.mem.(lastNow := now));
    if Serves(m.mem, now) && id in m.mem.records {
      LapsedIs(m.mem.records[id], now);
      if Overdue(m.mem.records[id], now) {
        var r := Lapsed(m.mem.records[id], now);
        WriteAnswers(m1, m.mem.records[id := r], Ok(r), now, fault);
      }
    }
  }

  // ---- Create ------------------------------------------------------------------------------------------

  /** The pending record of a manifest. */
  function Proposed(raw: string, m: Manifest.Manifest): Record {
    Record(m.proposal.requestID, raw, m.requestDigest, Pending, m.proposal.createdAt.seconds,
      m.proposal.expiresAt.seconds, 31_622_400, "")
  }

  /** The manifest is for these rules, open at this instant, and not open for too long. */
  predicate Fitting(rules: Rules, p: Manifest.Proposal, now: int) {
    p.policyVersion == rules.policyVersion && p.revocationEpoch == rules.revocationEpoch
    && p.createdAt.seconds <= now < p.expiresAt.seconds && p.expiresAt.seconds - p.createdAt.seconds <= rules.maxTTL
  }

  /** Create answers with the manifest's own pending record and has committed just that beside all others; it
      does so exactly for a canonical manifest that fits, under a fresh identifier, with room for it. */
  lemma CreateAnswers(hash: Hasher, rules: Rules, m: Machine, raw: string, now: int, fault: Fault)
    ensures var (m', r) := Apply(hash, rules, m, Create(raw), now, fault); var parsed := Manifest.Parse(hash, raw);
      (r.Ok? ==>
         parsed.Ok? && parsed.value.proposal.requestID !in m.mem.records
         && r.value == ARecord(Proposed(raw, parsed.value))
         && Committed(m, m', m.mem.records[parsed.value.proposal.requestID := Proposed(raw, parsed.value)], now))
      && (r.Err? ==> SameSnapshot(m, m'))
      && (fault.NoFault? ==>
            (r.Ok? <==> Serves(m.mem, now) && parsed.Ok? && Fitting(rules, parsed.value.proposal, now)
                        && parsed.value.proposal.requestID !in m.mem.records && |m.mem.records| < rules.maxRecords
                        && HasRoom(m)))
      && (r == Err(Conflict) <==> Serves(m.mem, now) && parsed.Ok? && Fitting(rules, parsed.value.proposal, now)
                                  && parsed.value.proposal.requestID in m.mem.records)
  {
    hide Readable, Commit, EncodeSnapshot, Manifest.Parse;
    ClockExactly(m.mem, now);
    hide TrustedReading;
    var parsed := Manifest.Parse(hash, raw);
    if parsed.Ok? {
      ParsedEncoding(hash, raw);
      var m1, r := m.(mem := m.mem.(lastNow := now)), Proposed(raw, parsed.value);
      if Serves(m.mem, now) {
        WriteAnswers(m1, m.mem.records[parsed.value.proposal.requestID := r], Ok(r), now, fault);
      }
    }
  }

  lemma ParsedEncoding(hash: Hasher, raw: string)
    requires Manifest.Parse(hash, raw).Ok?
    ensures Manifest.Parse(hash, raw).value.encoding == raw
  {
    hide Manifest.Parse, Manifest.Build, Manifest.ValidProposal;
    Manifest.ParseAcceptsExactly(hash, raw);
  }

  // ---- transitions -----------------------------------------------------------------------------------------

  /** The record moved at that instant; only an approval and a denial name their operator. */
  function MovedTo(r: Record, target: State, actor: string, now: int): Record {
    Record(r.requestID, r.manifest, r.digest, target, r.createdAt, r.expiresAt, now,
      if target == Approved || target == Denied then actor else r.actorID)
  }

  /** The moves a person can make. */
  predicate ByHand(from: State, to: State) { (from, to) in {
      (Pending, Approved), (Pending, Denied), (Pending, Cancelled), (Approved, Stale)}
  }

  /** A transition answers with the record moved as asked, and has committed just that; on an overdue record
      it has committed the expiry instead and says that it came too late; else it changes nothing. */
  lemma TransitionAnswers(hash: Hasher, rules: Rules, m: Machine, id: string, digest: string, target: State,
                          actor: string, now: int, fault: Fault)
    ensures var (m', r) := Apply(hash, rules, m, Transition(id, digest, target, actor), now, fault);
      var records := m.mem.records;
      (r.Ok? ==>
         Serves(m.mem, now) && id in records && records[id].digest == digest && !Overdue(records[id], now)
         && ByHand(records[id].state, target) && r.value == ARecord(MovedTo(records[id], target, actor, now))
         && Committed(m, m', records[id := MovedTo(records[id], target, actor, now)], now))
      && (r == Err(TimedOut) ==>
            Serves(m.mem, now) && id in records && Overdue(records[id], now)
            && Committed(m, m', records[id := Lapsed(records[id], now)], now))
      && (r.Err? && r.error != TimedOut ==> SameSnapshot(m, m'))
      && (fault.NoFault? ==>
            (r.Ok? <==> Serves(m.mem, now) && id in records && records[id].digest == digest
                        && !Overdue(records[id], now) && ByHand(records[id].state, target)
                        && (target == Approved || target == Denied ==> ValidScalar(actor, 128)) && HasRoom(m)))
  {
    hide Readable, Commit, EncodeSnapshot, ValidScalar, ExpireRecord, Due, Overdue, Lapsed;
    ClockExactly(m.mem, now);
    hide TrustedReading;
    if Serves(m.mem, now) && id in m.mem.records {
      var m1, r := m.(mem := m.mem.(lastNow := now)), m.mem.records[id];
      LapsedIs(r, now);
      WriteAnswers(m1, m.mem.records[id := Lapsed(r, now)], Err(TimedOut), now, fault);
      var moved := MovedTo(r, target, actor, now);
      WriteAnswers(m1, m.mem.records[id := moved], Ok(moved), now, fault);
      assert Allowed(r.state, target) <==> ByHand(r.state, target);
    }
  }

  // ---- expiry and snapshots ----------------------------------------------------------------------------------

  /** Everything overdue has lapsed in one commit; without anything overdue only the clock was read. */
  predicate Swept(m: Machine, m': Machine, now: int) {
    if NoneOverdue(m.mem.records, now) then OnlyRead(m, m', now)
    else Committed(m, m', Lapses(m.mem.records, now), now)
  }

  lemma SweepAnswers(m: Machine, now: int, fault: Fault)
    requires !m.mem.closed && !m.mem.poisoned && m.mem.lastNow == now
    ensures NoneOverdue(m.mem.records, now) ==> Swept(m, m, now)
    ensures var m', e := Commit(m, AllExpired(m.mem.records, now), now, fault).0,
                         Commit(m, AllExpired(m.mem.records, now), now, fault).1;
      (!NoneOverdue(m.mem.records, now) && e.None? ==> Swept(m, m', now)) && (e.Some? ==> SameSnapshot(m, m'))
      && (fault.NoFault? ==> (e.None? <==> HasRoom(m)))
  {
    hide Commit, EncodeSnapshot, AllExpired, DueIDs, Lapses, NoneOverdue;
    LapsesAre(m.mem.records, now);
    CommitAnswers(m, Lapses(m.mem.records, now), now, fault);
    var (m', e) := Commit(m, AllExpired(m.mem.records, now), now, fault);
    assert e.None? ==> Committed(m, m', Lapses(m.mem.records, now), now);
  }

  /** ExpireDue counts the overdue records, and has expired just those. */
  lemma ExpireAnswers(hash: Hasher, rules: Rules, m: Machine, now: int, fault: Fault)
    ensures var (m', r) := Apply(hash, rules, m, ExpireDue, now, fault);
      (r.Ok? ==> Serves(m.mem, now) && Swept(m, m', now)
                 && r.value == ACount(|set id | id in m.mem.records && Overdue(m.mem.records[id], now)|))
      && (r.Err? ==> SameSnapshot(m, m'))
      && (fault.NoFault? ==>
            (r.Ok? <==> Serves(m.mem, now) && (NoneOverdue(m.mem.records, now) || HasRoom(m))))
  {
    hide Readable, Commit, EncodeSnapshot, AllExpired, DueIDs, Lapses, NoneOverdue, Overdue;
    ClockExactly(m.mem, now);
    hide TrustedReading;
    LapsesAre(m.mem.records, now);
    if Serves(m.mem, now) {
      var m1 := m.(mem := m.mem.(lastNow := now));
      SweepAnswers(m1, now, fault);
      var (m', e) := Commit(m1, AllExpired(m.mem.records, now), now, fault);
      assert e.None? && !NoneOverdue(m.mem.records, now) ==> Swept(m, m', now);
    }
  }

  /** The list has every record of the map once, in the order of its keys. */
  ghost predicate Lists(list: seq<Record>, keys: seq<string>, records: map<string, Record>) {
    |list| == |keys| == |records| && StrictlySorted(keys) && (forall id :: id in keys <==> id in records)
    && forall i :: 0 <= i < |keys| ==> list[i] == records[keys[i]]
  }

  /** Each record is held under its own identifier, as every good store holds them. */
  predicate OwnKeys(records: map<string, Record>) { forall id :: id in records ==> records[id].requestID == id }

  lemma ListedExactly(list: seq<Record>, keys: seq<string>, records: map<string, Record>)
    requires Lists(list, keys, records) && OwnKeys(records)
    ensures forall id :: id in records ==> records[id] in list
    ensures forall x :: x in list ==> x.requestID in records && records[x.requestID] == x
    ensures forall i, j :: 0 <= i < j < |list| ==> Before(list[i].requestID, list[j].requestID)
  {
    hide Before;
    forall id | id in records ensures records[id] in list {
      var i :| 0 <= i < |keys| && keys[i] == id;
      assert list[i] == records[id];
    }
    forall i | 0 <= i < |list| ensures keys[i] in records && list[i].requestID == keys[i] { assert keys[i] in keys; }
  }

  lemma ReplyLists(m: Memory) returns (keys: seq<string>)
    ensures SnapshotReply(m).ASnapshot? && Lists(SnapshotReply(m).records, keys, m.records)
      && SnapshotReply(m).generation == m.generation && SnapshotReply(m).observed == m.observed
  {
    hide Before, SortedIDs;
    keys := SortedIDs(m.records.Keys);
    assert |m.records| == |m.records.Keys|;
  }

  /** A snapshot has every record of the resulting memory and no other, as it is there, once each and in the
      order of identifiers, under the generation and time of that memory, in which nothing is overdue. */
  lemma SnapshotAnswers(hash: Hasher, rules: Rules, m: Machine, now: int, fault: Fault)
    ensures var (m', r) := Apply(hash, rules, m, TakeSnapshot, now, fault); var after := m'.mem.records;
      (r.Ok? ==>
         Serves(m.mem, now) && Swept(m, m', now) && r.value.ASnapshot?
         && r.value.generation == m'.mem.generation && r.value.observed == m'.mem.observed
         && |r.value.records| == |after|
         && (OwnKeys(m.mem.records) ==>
               (forall id :: id in after ==> after[id] in r.value.records)
               && (forall x :: x in r.value.records ==> x.requestID in after && after[x.requestID] == x)
               && forall i, j :: 0 <= i < j < |r.value.records| ==>
                    Before(r.value.records[i].requestID, r.value.records[j].requestID)))
      && (r.Err? ==> SameSnapshot(m, m'))
      && (fault.NoFault? ==>
            (r.Ok? <==> Serves(m.mem, now) && (NoneOverdue(m.mem.records, now) || HasRoom(m))))
  {
    hide Readable, Commit, EncodeSnapshot, AllExpired, DueIDs, Lapses, NoneOverdue, Overdue, SnapshotReply, Before,
      Lists, OwnKeys;
    ClockExactly(m.mem, now);
    hide TrustedReading;
    LapsesAre(m.mem.records, now);
    if Serves(m.mem, now) {
      var m1 := m.(mem := m.mem.(lastNow := now));
      SweepAnswers(m1, now, fault);
      var (m2, e) := Commit(m1, AllExpired(m.mem.records, now), now, fault);
      assert e.None? && !NoneOverdue(m.mem.records, now) ==> Swept(m, m2, now);
      var (m', r) := Apply(hash, rules, m, TakeSnapshot, now, fault);
      if r.Ok? {
        var keys := ReplyLists(m'.mem);
        if OwnKeys(m.mem.records) { LapsesOwn(m.mem.records, now); }
        ListsSize(r.value.records, keys, m'.mem.records);
        if OwnKeys(m.mem.records) { ListedExactly(r.value.records, keys, m'.mem.records); }
      }
    }
  }

  lemma ListsSize(list: seq<Record>, keys: seq<string>, records: map<string, Record>)
    requires Lists(list, keys, records)
    ensures |list| == |records|
  {
  }

  lemma LapsesOwn(records: map<string, Record>, now: int)
    requires OwnKeys(records)
    ensures OwnKeys(Lapses(records, now))
  {
  }
}
