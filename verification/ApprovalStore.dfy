/** The durable approval store: operations over a record map, a snapshot written through a
    temporary file, an fsync, a rename and a directory fsync, and a strict reopening. */
module ApprovalStore {
  import opened Text
  import opened CivilTime
  import opened ApprovalRecord
  import Manifest

  /** `Died` stands for a call that never returns because its process ended. */
  datatype Failure =
    | Invalid | Conflict | NotFound | WrongDigest | NotAllowed | TimedOut | Clock | Capacity
    | Persistence | Poisoned | Closed | Corrupt | Died

  // ---- what each operation decides about the records -------------------------------------

  datatype Plan =
    | Refuse(f: Failure)
    | Keep(r: Record)
    | Write(next: map<string, Record>, answer: Result<Record, Failure>)

  function ExpireRecord(r: Record, now: int): Record {
    r.(state := Expired, decidedAt := now, actorID := if r.state.Pending? then "" else r.actorID)
  }

  function CreatePlan(hash: Hasher, rules: Rules, records: map<string, Record>, raw: string, now: int): Plan {
    match Manifest.Parse(hash, raw)
    case Err(_) => Refuse(Invalid)
    case Ok(m) =>
      var p := m.proposal;
      if raw != m.encoding || p.policyVersion != rules.policyVersion || p.revocationEpoch != rules.revocationEpoch then
        Refuse(Invalid)
      else if p.createdAt.seconds > now || now >= p.expiresAt.seconds
              || p.expiresAt.seconds - p.createdAt.seconds > rules.maxTTL then Refuse(TimedOut)
      else if p.requestID in records then Refuse(Conflict)
      else if |records| >= rules.maxRecords then Refuse(Capacity)
      else
        var r := Record(p.requestID, raw, m.requestDigest, Pending, p.createdAt.seconds, p.expiresAt.seconds,
                        ZERO_TIME, "");
        Write(records[p.requestID := r], Ok(r))
  }

  function GetPlan(records: map<string, Record>, id: string, now: int): Plan {
    if id !in records then Refuse(NotFound)
    else if Due(records[id], now) then
      var r := ExpireRecord(records[id], now);
      Write(records[id := r], Ok(r))
    else Keep(records[id])
  }

  predicate Allowed(from: State, to: State) {
    (from.Pending? && (to.Approved? || to.Denied? || to.Cancelled?)) || (from.Approved? && to.Stale?)
  }

  function TransitionPlan(records: map<string, Record>, id: string, digest: string, target: State, actor: string,
                          now: int): Plan {
    if id !in records then Refuse(NotFound)
    else
      var r := records[id];
      if Due(r, now) then Write(records[id := ExpireRecord(r, now)], Err(TimedOut))
      else if r.digest != digest then Refuse(WrongDigest)
      else if !Allowed(r.state, target) then Refuse(NotAllowed)
      else
        var moved := r.(state := target, decidedAt := now,
                        actorID := if target.Approved? || target.Denied? then actor else r.actorID);
        Write(records[id := moved], Ok(moved))
  }

  function DueIDs(records: map<string, Record>, now: int): set<string> {
    set id | id in records && Due(records[id], now)
  }

  function AllExpired(records: map<string, Record>, now: int): map<string, Record> {
    map id | id in records :: if Due(records[id], now) then ExpireRecord(records[id], now) else records[id]
  }

  lemma AllExpiredAt(records: map<string, Record>, next: map<string, Record>, now: int)
    requires next.Keys == records.Keys
    requires forall id :: id in records ==> next[id] == if Due(records[id], now) then ExpireRecord(records[id], now)
      else records[id]
    ensures next == AllExpired(records, now)
  {
    hide ExpireRecord;
  }

  // ---- the disk ---------------------------------------------------------------------------------

  /** A file whose bytes an fsync has made durable, or not yet. */
  datatype File = File(text: string, synced: bool)

  /** `undone` lists the state files a power failure may still bring back, oldest first: a rename
      adds one, syncing the directory forgets them. */
  datatype Disk = Disk(state: Option<File>, temp: Option<File>, undone: seq<Option<File>>)

  function CreateTemp(d: Disk): Disk { d.(temp := Some(File("", false))) }
  function WriteTemp(d: Disk, text: string): Disk { d.(temp := Some(File(text, false))) }
  function SyncTemp(d: Disk): Disk { if d.temp.Some? then d.(temp := Some(d.temp.value.(synced := true))) else d }
  function RemoveTemp(d: Disk): Disk { d.(temp := None) }
  function RenameTemp(d: Disk): Disk { Disk(d.temp, None, d.undone + [d.state]) }
  function SyncDirectory(d: Disk): Disk { d.(undone := []) }

  /** What a power failure can leave of one file: all of it if synced, anything otherwise. */
  predicate Survives(f: Option<File>, g: Option<File>) {
    match f
    case None => g == None
    case Some(a) => g.Some? && g.value.synced && (a.synced ==> g.value.text == a.text)
  }

  /** The disks a crash may leave behind; the temporary file may be there or not. */
  predicate AfterCrash(d: Disk, e: Disk) {
    e.undone == [] && (Survives(d.state, e.state) || exists i :: 0 <= i < |d.undone| && Survives(d.undone[i], e.state))
  }

  datatype Phase = Creating | Writing | FileSyncing | Closing | Renaming | DirectorySyncing

  /** One fault of a commit: a phase that reports an error (and whether the clean-up then removes
      the temporary file), or the process ending in a phase with part of the file written. */
  datatype Fault = NoFault | Fails(phase: Phase, removed: bool) | Dies(during: Phase, partial: string)

  datatype Outcome = Done | Failed(f: Failure) | Ended

  function CleanUp(d: Disk, removed: bool): Disk { if removed then RemoveTemp(d) else d }

  function Persist(d: Disk, raw: string, fault: Fault): (Disk, Outcome) {
    if d.temp.Some? then (d, Failed(Persistence)) else
    var created := CreateTemp(d);
    if fault.Dies? && fault.during.Creating? then (created, Ended)
    else if fault.Fails? && fault.phase.Creating? then (CleanUp(created, fault.removed), Failed(Persistence))
    else if fault.Dies? && fault.during.Writing? then (WriteTemp(created, fault.partial), Ended)
    else if fault.Fails? && fault.phase.Writing? then (CleanUp(created, fault.removed), Failed(Persistence))
    else
      var written := WriteTemp(created, raw);
      if fault.Dies? && fault.during.FileSyncing? then (written, Ended)
      else if fault.Fails? && fault.phase.FileSyncing? then (CleanUp(written, fault.removed), Failed(Persistence))
      else
        var synced := SyncTemp(written);
        if fault.Dies? && (fault.during.Closing? || fault.during.Renaming?) then (synced, Ended)
        else if fault.Fails? && fault.phase.Closing? then (CleanUp(synced, fault.removed), Failed(Persistence))
        else if fault.Fails? && fault.phase.Renaming? then (CleanUp(synced, fault.removed), Failed(Poisoned))
        else
          var renamed := RenameTemp(synced);
          if fault.Dies? then (renamed, Ended)
          else if fault.Fails? then (renamed, Failed(Poisoned))
          else (SyncDirectory(renamed), Done)
  }

  predicate AllSynced(d: Disk) {
    (d.state.Some? ==> d.state.value.synced)
    && forall i :: 0 <= i < |d.undone| && d.undone[i].Some? ==> d.undone[i].value.synced
  }

  /** Whatever phase fails, and whatever a crash then leaves, the state file holds a complete
      snapshot: one it could have held before, or the new one; after success, the new one. */
  lemma PersistIsAtomic(d: Disk, raw: string, fault: Fault, e: Disk)
    requires AllSynced(d) && AfterCrash(Persist(d, raw, fault).0, e)
    ensures AllSynced(Persist(d, raw, fault).0)
    ensures e.state == d.state || e.state in d.undone || e.state == Some(File(raw, true))
    ensures Persist(d, raw, fault).1.Done? ==> e.state == Some(File(raw, true))
    ensures Persist(d, raw, fault).1 == Failed(Persistence) ==> e.state == d.state || e.state in d.undone
  {
    var p := Persist(d, raw, fault).0;
    if !Survives(p.state, e.state) {
      var i :| 0 <= i < |p.undone| && Survives(p.undone[i], e.state);
      assert p.undone[i] == d.state || p.undone[i] in d.undone;
    }
  }

  // ---- the store as a value --------------------------------------------------------------------

  datatype Memory = Memory(
    records: map<string, Record>, generation: nat, observed: int, lastNow: int, poisoned: bool, closed: bool)

  datatype Machine = Machine(mem: Memory, disk: Disk)

  const MAX_GENERATION := 0xFFFF_FFFF_FFFF_FFFF

  datatype Op =
    | Create(raw: string)
    | Get(id: string)
    | Transition(id: string, digest: string, target: State, actor: string)
    | ExpireDue
    | TakeSnapshot

  datatype Reply = ARecord(r: Record) | ACount(n: nat) | ASnapshot(generation: nat, observed: int, records: seq<Record>)

  predicate Usable(m: Memory) { !m.closed && !m.poisoned }

  function UseError(m: Memory): Failure { if m.closed then Closed else Poisoned }

  /** trustedNow: the reading, if its year has four digits from 0001 on and it is not behind. */
  predicate TrustedReading(m: Memory, reading: int) {
    ZERO_TIME <= reading && FourDigitYear(reading) && !(m.lastNow != ZERO_TIME && reading < m.lastNow)
  }

  function Commit(m: Machine, next: map<string, Record>, now: int, fault: Fault): (Machine, Option<Failure>) {
    if m.mem.generation == MAX_GENERATION then (m, Some(Capacity)) else
    var (disk, outcome) := Persist(m.disk, EncodeSnapshot(next, m.mem.generation + 1, now), fault);
    match outcome
    case Done => (Machine(m.mem.(records := next, generation := m.mem.generation + 1, observed := now), disk), None)
    case Failed(f) => (Machine(m.mem.(poisoned := m.mem.poisoned || f.Poisoned?), disk), Some(f))
    case Ended => (Machine(m.mem.(closed := true), disk), Some(Died))
  }

  function Carry(m: Machine, plan: Plan, now: int, fault: Fault): (Machine, Result<Reply, Failure>) {
    match plan
    case Refuse(f) => (m, Err(f))
    case Keep(r) => (m, Ok(ARecord(r)))
    case Write(next, answer) =>
      var (m', e) := Commit(m, next, now, fault);
      (m', if e.Some? then Err(e.value) else match answer case Ok(r) => Ok(ARecord(r)) case Err(f) => Err(f))
  }

  function SnapshotReply(m: Memory): Reply {
    var ids := SortedIDs(m.records.Keys);
    ASnapshot(m.generation, m.observed, seq(|ids|, i requires 0 <= i < |ids| => m.records[ids[i]]))
  }

  function Apply(hash: Hasher, rules: Rules, m: Machine, op: Op, reading: int,
                 fault: Fault): (Machine, Result<Reply, Failure>) {
    if !Usable(m.mem) then (m, Err(UseError(m.mem)))
    else if op.Transition? && (op.target.Approved? || op.target.Denied?) && !ValidScalar(op.actor, 128) then
      (m, Err(Invalid))
    else if !TrustedReading(m.mem, reading) then (m, Err(Clock))
    else
      var now, m1 := reading, m.(mem := m.mem.(lastNow := reading));
      match op
      case Create(raw) => Carry(m1, CreatePlan(hash, rules, m.mem.records, raw, now), now, fault)
      case Get(id) => Carry(m1, GetPlan(m.mem.records, id, now), now, fault)
      case Transition(id, digest, target, actor) =>
        Carry(m1, TransitionPlan(m.mem.records, id, digest, target, actor, now), now, fault)
      case ExpireDue =>
        if DueIDs(m.mem.records, now) == {} then (m1, Ok(ACount(0))) else
        var (m2, e) := Commit(m1, AllExpired(m.mem.records, now), now, fault);
        (m2, if e.Some? then Err(e.value) else Ok(ACount(|DueIDs(m.mem.records, now)|)))
      case TakeSnapshot =>
        if DueIDs(m.mem.records, now) == {} then (m1, Ok(SnapshotReply(m1.mem))) else
        var (m2, e) := Commit(m1, AllExpired(m.mem.records, now), now, fault);
        (m2, if e.Some? then Err(e.value) else Ok(SnapshotReply(m2.mem)))
  }

  function Fresh(): Memory { Memory(map[], 0, ZERO_TIME, ZERO_TIME, false, false) }

  /** Open: a left-over temporary file, a wrong size or a document the loader refuses is corrupt. */
  function Open(hash: Hasher, rules: Rules, d: Disk): Result<Memory, Failure> {
    if d.temp.Some? then Err(Corrupt)
    else if d.state.None? then Ok(Fresh())
    else if |d.state.value.text| == 0 || |d.state.value.text| > SizeLimit(rules.maxRecords) then Err(Corrupt)
    else
      match DecodeSnapshot(hash, rules, d.state.value.text)
      case None => Err(Corrupt)
      case Some(l) => Ok(Memory(l.records, l.generation, l.observed, l.observed, false, false))
  }

  // ---- the store as a class ----------------------------------------------------------------------

  class Store {
    const hash: Hasher
    const rules: Rules
    var records: map<string, Record>
    var generation: nat
    var observed: int
    var lastNow: int
    var poisoned: bool
    var closed: bool
    var disk: Disk

    function Value(): Machine
      reads this
    {
      Machine(Memory(records, generation, observed, lastNow, poisoned, closed), disk)
    }

    constructor (hash: Hasher, rules: Rules, mem: Memory, disk: Disk)
      ensures Value() == Machine(mem, disk) && this.hash == hash && this.rules == rules
    {
      this.hash, this.rules, this.disk := hash, rules, disk;
      records, generation, observed := mem.records, mem.generation, mem.observed;
      lastNow, poisoned, closed := mem.lastNow, mem.poisoned, mem.closed;
    }

    method PersistSnapshot(raw: string, fault: Fault) returns (o: Outcome)
      modifies this`disk, this`poisoned
      ensures (disk, o) == Persist(old(disk), raw, fault)
      ensures poisoned == (old(poisoned) || o == Failed(Poisoned))
    {
      if disk.temp.Some? { return Failed(Persistence); }
      disk := CreateTemp(disk);
      if fault.Dies? && fault.during.Creating? { return Ended; }
      if fault.Fails? && fault.phase.Creating? { disk := CleanUp(disk, fault.removed); return Failed(Persistence); }
      if fault.Dies? && fault.during.Writing? { disk := WriteTemp(disk, fault.partial); return Ended; }
      if fault.Fails? && fault.phase.Writing? { disk := CleanUp(disk, fault.removed); return Failed(Persistence); }
      disk := WriteTemp(disk, raw);
      if fault.Dies? && fault.during.FileSyncing? { return Ended; }
      if fault.Fails? && fault.phase.FileSyncing? { disk := CleanUp(disk, fault.removed); return Failed(Persistence); }
      disk := SyncTemp(disk);
      if fault.Dies? && (fault.during.Closing? || fault.during.Renaming?) { return Ended; }
      if fault.Fails? && fault.phase.Closing? { disk := CleanUp(disk, fault.removed); return Failed(Persistence); }
      if fault.Fails? && fault.phase.Renaming? {
        poisoned := true;
        disk := CleanUp(disk, fault.removed);
        return Failed(Poisoned);
      }
      disk := RenameTemp(disk);
      if fault.Dies? { return Ended; }
      if fault.Fails? {
        poisoned := true;
        return Failed(Poisoned);
      }
      disk := SyncDirectory(disk);
      o := Done;
    }

    method CommitNext(next: map<string, Record>, now: int, fault: Fault) returns (e: Option<Failure>)
      modifies this
      ensures (Value(), e) == Commit(old(Value()), next, now, fault)
    {
      hide EncodeSnapshot, Persist;
      if generation == MAX_GENERATION { return Some(Capacity); }
      var raw := EncodeSnapshot(next, generation + 1, now);
      var o := PersistSnapshot(raw, fault);
      match o {
        case Failed(f) => return Some(f);
        case Ended => closed := true; return Some(Died);
        case Done =>
      }
      records, generation, observed := next, generation + 1, now;
      e := None;
    }

    method TrustedNow(reading: int) returns (ok: bool)
      modifies this`lastNow
      ensures ok == TrustedReading(old(Value()).mem, reading)
      ensures lastNow == if ok then reading else old(lastNow)
    {
      if !(ZERO_TIME <= reading && FourDigitYear(reading)) { return false; }
      if lastNow != ZERO_TIME && reading < lastNow { return false; }
      lastNow := reading;
      ok := true;
    }

    method CreateRecord(raw: string, reading: int, fault: Fault) returns (r: Result<Record, Failure>)
      modifies this
      ensures (Value(), Lift(r)) == Apply(hash, rules, old(Value()), Create(raw), reading, fault)
    {
      hide EncodeSnapshot, Commit, FourDigitYear, Manifest.Parse, SnapshotReply, AllExpired, DueIDs, SortedIDs,
        GetPlan, TransitionPlan;
      if closed || poisoned { return Err(UseError(Value().mem)); }
      var ok := TrustedNow(reading);
      if !ok { return Err(Clock); }
      var m := Manifest.Parse(hash, raw);
      if m.Err? || raw != m.value.encoding { return Err(Invalid); }
      var p := m.value.proposal;
      if p.policyVersion != rules.policyVersion || p.revocationEpoch != rules.revocationEpoch { return Err(Invalid); }
      if p.createdAt.seconds > reading || reading >= p.expiresAt.seconds
        || p.expiresAt.seconds - p.createdAt.seconds > rules.maxTTL {
        return Err(TimedOut);
      }
      if p.requestID in records { return Err(Conflict); }
      if |records| >= rules.maxRecords { return Err(Capacity); }
      var record := Record(p.requestID, raw, m.value.requestDigest, Pending, p.createdAt.seconds, p.expiresAt.seconds,
                           ZERO_TIME, "");
      var e := CommitNext(records[p.requestID := record], reading, fault);
      if e.Some? { return Err(e.value); }
      r := Ok(record);
    }

    method GetRecord(id: string, reading: int, fault: Fault) returns (r: Result<Record, Failure>)
      modifies this
      ensures (Value(), Lift(r)) == Apply(hash, rules, old(Value()), Get(id), reading, fault)
    {
      hide EncodeSnapshot, Commit, FourDigitYear, Manifest.Parse, SnapshotReply, AllExpired, DueIDs, SortedIDs,
        CreatePlan, TransitionPlan, ExpireRecord;
      if closed || poisoned { return Err(UseError(Value().mem)); }
      var ok := TrustedNow(reading);
      if !ok { return Err(Clock); }
      if id !in records { return Err(NotFound); }
      var record := records[id];
      if Due(record, reading) {
        record := ExpireRecord(record, reading);
        var e := CommitNext(records[id := record], reading, fault);
        if e.Some? { return Err(e.value); }
      }
      r := Ok(record);
    }

    /** Approve, Deny, Cancel and MarkStale. */
    method TransitionRecord(id: string, digest: string, target: State, actor: string, reading: int, fault: Fault)
      returns (r: Result<Record, Failure>)
      modifies this
      ensures (Value(), Lift(r))
        == Apply(hash, rules, old(Value()), Transition(id, digest, target, actor), reading, fault)
    {
      hide FourDigitYear, Manifest.Parse, SnapshotReply, AllExpired, DueIDs, SortedIDs, Carry, CreatePlan, GetPlan,
        TransitionPlan, ValidScalar, Commit;
      if closed || poisoned { return Err(UseError(Value().mem)); }
      if (target.Approved? || target.Denied?) && !ValidScalar(actor, 128) { return Err(Invalid); }
      var ok := TrustedNow(reading);
      if !ok { return Err(Clock); }
      r := Move(id, digest, target, actor, reading, fault);
    }

    /** The part of a transition after the clock has been read. */
    method Move(id: string, digest: string, target: State, actor: string, now: int, fault: Fault)
      returns (r: Result<Record, Failure>)
      modifies this
      ensures (Value(), Lift(r))
        == Carry(old(Value()), TransitionPlan(old(records), id, digest, target, actor, now), now, fault)
    {
      hide EncodeSnapshot, Commit, ExpireRecord;
      if id !in records { return Err(NotFound); }
      var record := records[id];
      if Due(record, now) {
        var e := CommitNext(records[id := ExpireRecord(record, now)], now, fault);
        return Err(if e.Some? then e.value else TimedOut);
      }
      if record.digest != digest { return Err(WrongDigest); }
      if !Allowed(record.state, target) { return Err(NotAllowed); }
      record := record.(state := target, decidedAt := now);
      if target.Approved? || target.Denied? { record := record.(actorID := actor); }
      var e := CommitNext(records[id := record], now, fault);
      r := if e.Some? then Err(e.value) else Ok(record);
    }

    /** The loop of expiredRecords over a copy of the records. */
    method ExpiredRecords(now: int) returns (next: map<string, Record>, count: nat)
      ensures next == AllExpired(records, now) && count == |DueIDs(records, now)|
    {
      hide AllExpired, ExpireRecord;
      next, count := records, 0;
      var todo := records.Keys;
      ghost var expired: set<string> := {};
      while todo != {}
        invariant todo <= records.Keys && next.Keys == records.Keys
        invariant forall id :: id in todo ==> next[id] == records[id]
        invariant forall id :: id in records && id !in todo ==> next[id] == if Due(records[id], now) then
          ExpireRecord(records[id], now) else records[id]
        invariant forall id :: id in expired <==> id in records && id !in todo && Due(records[id], now)
        invariant count == |expired|
        decreases |todo|
      {
        var id :| id in todo;
        todo := todo - {id};
        if Due(next[id], now) {
          next, count := next[id := ExpireRecord(next[id], now)], count + 1;
          expired := expired + {id};
        }
      }
      assert expired == DueIDs(records, now);
      AllExpiredAt(records, next, now);
    }

    method ExpireAll(reading: int, fault: Fault) returns (r: Result<nat, Failure>)
      modifies this
      ensures (Value(), match r case Ok(n) => Ok(ACount(n)) case Err(f) => Err(f))
           == Apply(hash, rules, old(Value()), ExpireDue, reading, fault)
    {
      hide EncodeSnapshot, Commit, FourDigitYear, Manifest.Parse, SnapshotReply, AllExpired, DueIDs, SortedIDs,
        CreatePlan, GetPlan, TransitionPlan;
      if closed || poisoned { return Err(UseError(Value().mem)); }
      var ok := TrustedNow(reading);
      if !ok { return Err(Clock); }
      var next, count := ExpiredRecords(reading);
      if count == 0 { return Ok(0); }
      var e := CommitNext(next, reading, fault);
      if e.Some? { return Err(e.value); }
      r := Ok(count);
    }

    method Snapshot(reading: int, fault: Fault) returns (r: Result<Reply, Failure>)
      modifies this
      ensures (Value(), r) == Apply(hash, rules, old(Value()), TakeSnapshot, reading, fault)
    {
      hide EncodeSnapshot, Commit, FourDigitYear, Manifest.Parse, SnapshotReply, AllExpired, DueIDs, SortedIDs,
        CreatePlan, GetPlan, TransitionPlan, Carry;
      if closed || poisoned { return Err(UseError(Value().mem)); }
      var ok := TrustedNow(reading);
      if !ok { return Err(Clock); }
      var next, count := ExpiredRecords(reading);
      if count > 0 {
        var e := CommitNext(next, reading, fault);
        if e.Some? { return Err(e.value); }
      }
      r := CurrentSnapshot();
    }

    method CurrentSnapshot() returns (r: Result<Reply, Failure>)
      ensures r == Ok(SnapshotReply(Value().mem))
    {
      hide SortedIDs;
      var ids := SortedIDs(records.Keys);
      var list := [];
      for i := 0 to |ids|
        invariant |list| == i && forall j :: 0 <= j < i ==> list[j] == records[ids[j]]
      {
        list := list + [records[ids[i]]];
      }
      assert list == SnapshotReply(Value().mem).records;
      r := Ok(ASnapshot(generation, observed, list));
    }

    /** Whatever of the lock, the root and the directory cannot be released, the store is closed, and a
        second close does nothing. */
    method Close(lockFails: bool, rootFails: bool, directoryFails: bool) returns (e: Option<Failure>)
      modifies this`closed
      ensures Value() == old(Value()).(mem := old(Value()).mem.(closed := true))
      ensures e == if !old(closed) && (lockFails || rootFails || directoryFails) then Some(Persistence) else None
    {
      if closed { return None; }
      closed := true;
      if lockFails { return Some(Persistence); }
      if rootFails { return Some(Persistence); }
      if directoryFails { return Some(Persistence); }
      e := None;
    }
  }

  function Lift(r: Result<Record, Failure>): Result<Reply, Failure> {
    match r case Ok(x) => Ok(ARecord(x)) case Err(f) => Err(f)
  }

  // ---- what one operation does to the records ------------------------------------------------------

  predicate SameRequest(r: Record, s: Record) {
    r.requestID == s.requestID && r.manifest == s.manifest && r.digest == s.digest && r.createdAt == s.createdAt
      && r.expiresAt == s.expiresAt
  }

  /** One move of a record's life. */
  predicate OneMove(r: Record, s: Record) {
    SameRequest(r, s)
    && ((r.state.Pending? && (s.state.Approved? || s.state.Denied? || s.state.Cancelled? || s.state.Expired?))
        || (r.state.Approved? && (s.state.Stale? || s.state.Expired?) && s.actorID == r.actorID))
  }

  predicate Moves(a: map<string, Record>, b: map<string, Record>) {
    (forall id :: id in a ==> id in b && (b[id] == a[id] || OneMove(a[id], b[id])))
    && forall id :: id in b && id !in a ==> b[id].state.Pending?
  }

  /** Any number of moves. */
  predicate Evolved(r: Record, s: Record) {
    SameRequest(r, s)
    && (r == s || (r.state.Pending? && !s.state.Pending?)
    || (r.state.Approved? && (s.state.Stale? || s.state.Expired?) && s.actorID == r.actorID))
  }

  predicate AllEvolved(a: map<string, Record>, b: map<string, Record>) {
    forall id :: id in a ==> id in b && Evolved(a[id], b[id])
  }

  ghost predicate GoodPlan(hash: Hasher, rules: Rules, records: map<string, Record>, now: int,
                           next: map<string, Record>) {
    next != map[] && GoodRecords(hash, rules, next, now) && Moves(records, next)
  }

  lemma LaterStillGood(hash: Hasher, rules: Rules, records: map<string, Record>, t: int, now: int)
    requires GoodRecords(hash, rules, records, t) && t <= now
    ensures GoodRecords(hash, rules, records, now)
  {
    hide Manifest.Parse, FourDigitYear, DecidedShape;
    forall id | id in records ensures GoodRecord(hash, rules, id, records[id], now) {
      assert GoodRecord(hash, rules, id, records[id], t);
    }
  }

  lemma ExpiredStillGood(hash: Hasher, rules: Rules, id: string, r: Record, now: int)
    requires GoodRecord(hash, rules, id, r, now) && Due(r, now) && ZERO_TIME <= now && FourDigitYear(now)
    ensures GoodRecord(hash, rules, id, ExpireRecord(r, now), now) && OneMove(r, ExpireRecord(r, now))
  {
    hide Manifest.Parse, FourDigitYear, ValidScalar;
  }

  lemma InsertMoves(records: map<string, Record>, id: string, r: Record)
    requires id !in records && r.state.Pending?
    ensures Moves(records, records[id := r])
  {
    hide OneMove;
  }

  lemma InsertedStillGood(hash: Hasher, rules: Rules, records: map<string, Record>, id: string, r: Record, now: int)
    requires GoodRecords(hash, rules, records, now) && id !in records && |records| < rules.maxRecords
    requires GoodRecord(hash, rules, id, r, now) && r.state.Pending?
    ensures GoodPlan(hash, rules, records, now, records[id := r])
  {
    hide GoodRecord, OneMove;
    var next := records[id := r];
    assert next.Keys == records.Keys + {id};
    assert |next| == |next.Keys| == |records.Keys| + 1;
    forall k | k in next ensures GoodRecord(hash, rules, k, next[k], now) { }
    InsertMoves(records, id, r);
    assert GoodRecords(hash, rules, next, now);
    assert id in next;
    hide Moves, GoodRecords;
  }

  lemma CreatePlanIsGood(hash: Hasher, rules: Rules, records: map<string, Record>, raw: string, now: int)
    requires GoodRecords(hash, rules, records, now) && CreatePlan(hash, rules, records, raw, now).Write?
    ensures var plan := CreatePlan(hash, rules, records, raw, now);
      GoodPlan(hash, rules, records, now, plan.next) && plan.answer.Ok?
      && plan.answer.value.requestID in plan.next && plan.next[plan.answer.value.requestID] == plan.answer.value
  {
    hide FourDigitYear, DecidedShape, Manifest.Parse, GoodRecords, GoodPlan;
    var r := CreatePlan(hash, rules, records, raw, now).answer.value;
    assert GoodRecord(hash, rules, r.requestID, r, now);
    InsertedStillGood(hash, rules, records, r.requestID, r, now);
  }

  lemma ReplacedStillGood(hash: Hasher, rules: Rules, records: map<string, Record>, id: string, r: Record, now: int)
    requires GoodRecords(hash, rules, records, now) && id in records
    requires GoodRecord(hash, rules, id, r, now) && OneMove(records[id], r)
    ensures GoodPlan(hash, rules, records, now, records[id := r])
  {
    hide GoodRecord, OneMove;
    var next := records[id := r];
    assert next.Keys == records.Keys;
    assert |next| == |next.Keys| == |records|;
    forall k | k in next ensures GoodRecord(hash, rules, k, next[k], now) { }
  }

  lemma GetPlanIsGood(hash: Hasher, rules: Rules, records: map<string, Record>, id: string, now: int)
    requires GoodRecords(hash, rules, records, now) && ZERO_TIME <= now && FourDigitYear(now)
    ensures var plan := GetPlan(records, id, now);
      plan.Write? ==>
        GoodPlan(hash, rules, records, now, plan.next) && plan.answer.Ok? && plan.next[id] == plan.answer.value
  {
    hide GoodRecord, FourDigitYear, ExpireRecord;
    if id in records && Due(records[id], now) {
      assert GoodRecord(hash, rules, id, records[id], now);
      ExpiredStillGood(hash, rules, id, records[id], now);
      ReplacedStillGood(hash, rules, records, id, ExpireRecord(records[id], now), now);
    }
  }

  lemma MovedStillGood(hash: Hasher, rules: Rules, id: string, r: Record, target: State, actor: string, now: int)
    requires GoodRecord(hash, rules, id, r, now) && ZERO_TIME <= now && FourDigitYear(now)
    requires !Due(r, now) && Allowed(r.state, target)
      && (target.Approved? || target.Denied? ==> ValidScalar(actor, 128))
    ensures var moved := r.(state := target, decidedAt := now,
                            actorID := if target.Approved? || target.Denied? then actor else r.actorID);
      GoodRecord(hash, rules, id, moved, now) && OneMove(r, moved)
  {
    hide Manifest.Parse, FourDigitYear, ValidScalar;
  }

  lemma TransitionPlanIsGood(hash: Hasher, rules: Rules, records: map<string, Record>, id: string, digest: string,
                             target: State, actor: string, now: int)
    requires GoodRecords(hash, rules, records, now) && ZERO_TIME <= now && FourDigitYear(now)
    requires target.Approved? || target.Denied? ==> ValidScalar(actor, 128)
    ensures var plan := TransitionPlan(records, id, digest, target, actor, now);
      plan.Write? ==>
        GoodPlan(hash, rules, records, now, plan.next) && (plan.answer.Ok? ==> plan.next[id] == plan.answer.value)
  {
    hide GoodRecord, FourDigitYear, ExpireRecord, ValidScalar, GoodPlan;
    if id in records {
      var r := records[id];
      assert GoodRecord(hash, rules, id, r, now);
      if Due(r, now) {
        ExpiredStillGood(hash, rules, id, r, now);
        ReplacedStillGood(hash, rules, records, id, ExpireRecord(r, now), now);
      } else if r.digest == digest && Allowed(r.state, target) {
        MovedStillGood(hash, rules, id, r, target, actor, now);
        ReplacedStillGood(hash, rules, records, id,
          r.(state := target, decidedAt := now,
            actorID := if target.Approved? || target.Denied? then actor else r.actorID), now);
      }
    }
  }

  lemma ExpiredRecordAt(hash: Hasher, rules: Rules, records: map<string, Record>, now: int, id: string)
    requires GoodRecords(hash, rules, records, now) && ZERO_TIME <= now && FourDigitYear(now) && id in records
    ensures var s := if Due(records[id], now) then ExpireRecord(records[id], now) else records[id];
      GoodRecord(hash, rules, id, s, now) && (s == records[id] || OneMove(records[id], s))
  {
    hide GoodRecord, FourDigitYear, ExpireRecord, OneMove, Due;
    assert GoodRecord(hash, rules, id, records[id], now);
    if Due(records[id], now) { ExpiredStillGood(hash, rules, id, records[id], now); }
  }

  lemma AllExpiredKeys(records: map<string, Record>, now: int)
    ensures AllExpired(records, now).Keys == records.Keys && |AllExpired(records, now)| == |records|
    ensures forall id :: id in records ==> AllExpired(records, now)[id] == if Due(records[id], now) then
      ExpireRecord(records[id], now) else records[id]
  {
    hide ExpireRecord, Due;
    var next := AllExpired(records, now);
    assert next.Keys == records.Keys;
    assert |next| == |next.Keys| && |records| == |records.Keys|;
  }

  lemma ExpireMoves(records: map<string, Record>, now: int)
    requires forall id :: id in records && Due(records[id], now) ==>
      OneMove(records[id], ExpireRecord(records[id], now))
    ensures Moves(records, AllExpired(records, now))
  {
    hide OneMove, ExpireRecord, Due;
  }

  lemma ExpirePlanIsGood(hash: Hasher, rules: Rules, records: map<string, Record>, now: int)
    requires GoodRecords(hash, rules, records, now) && ZERO_TIME <= now && FourDigitYear(now) && records != map[]
    ensures GoodPlan(hash, rules, records, now, AllExpired(records, now))
  {
    hide GoodRecord, FourDigitYear, ExpireRecord, OneMove, AllExpired, Due;
    var next := AllExpired(records, now);
    AllExpiredKeys(records, now);
    forall id | id in records ensures GoodRecord(hash, rules, id, next[id], now) {
      ExpiredRecordAt(hash, rules, records, now, id);
    }
    assert GoodRecords(hash, rules, next, now);
    assert next.Keys != {};
    forall id | id in records && Due(records[id], now) ensures OneMove(records[id], ExpireRecord(records[id], now)) {
      assert GoodRecord(hash, rules, id, records[id], now);
      ExpiredStillGood(hash, rules, id, records[id], now);
    }
    ExpireMoves(records, now);
    hide Moves, GoodRecords;
  }
}
