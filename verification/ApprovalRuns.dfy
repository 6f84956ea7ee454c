/** Whole runs of the approval store: calls that may fail or die in any phase of a commit, closing,
    power failures, removal of a left-over temporary file, and reopening. */
module ApprovalRuns {
  import opened Text
  import opened CivilTime
  import opened ApprovalRecord
  import opened ApprovalStore
  import Manifest

  /** No memory means no process holds the store. */
  datatype World = World(mem: Option<Memory>, disk: Disk)

  datatype Event =
    | Call(op: Op, reading: int, fault: Fault)
    | CloseStore
    | PowerLoss(left: Disk)
    | RemoveTemporary
    | Reopen

  predicate Enabled(w: World, e: Event) {
    match e
    case Call(_, _, _) => w.mem.Some?
    case CloseStore => w.mem.Some?
    case PowerLoss(left) => AfterCrash(w.disk, left)
    case RemoveTemporary => w.mem.None? || w.mem.value.closed
    case Reopen => w.mem.None? || w.mem.value.closed
  }

  /** An event that cannot happen changes nothing. */
  function Step(hash: Hasher, rules: Rules, w: World, e: Event): World {
    if !Enabled(w, e) then w else
    match e
    case Call(op, reading, fault) =>
      var m := Apply(hash, rules, Machine(w.mem.value, w.disk), op, reading, fault).0;
      World(Some(m.mem), m.disk)
    case CloseStore => w.(mem := Some(w.mem.value.(closed := true)))
    case PowerLoss(left) => World(None, left)
    case RemoveTemporary => w.(disk := RemoveTemp(w.disk))
    case Reopen =>
      match Open(hash, rules, w.disk)
      case Ok(m) => w.(mem := Some(m))
      case Err(_) => w.(mem := None)
  }

  // ---- what holds at every step -------------------------------------------------------------

  datatype Snap = Snap(records: map<string, Record>, generation: nat, observed: int)

  /** File f holds exactly snapshot s; generation 0 is the state before the first commit. */
  ghost predicate Stored(hash: Hasher, rules: Rules, f: Option<File>, s: Snap) {
    s.generation <= MAX_GENERATION && ZERO_TIME <= s.observed && FourDigitYear(s.observed)
      && GoodRecords(hash, rules, s.records, s.observed)
    && if s.generation == 0 then f == None && s.records == map[] && s.observed == ZERO_TIME
       else s.records != map[] && f == Some(File(EncodeSnapshot(s.records, s.generation, s.observed), true))
  }

  predicate Follows(a: Snap, b: Snap) {
    a.generation <= b.generation && a.observed <= b.observed && AllEvolved(a.records, b.records)
  }

  predicate Holds(m: Memory, s: Snap) {
    m.records == s.records && m.generation == s.generation && m.observed == s.observed && s.observed <= m.lastNow
  }

  /** The state files a power failure may bring back, oldest first, and the present one. */
  function Files(d: Disk): seq<Option<File>> { d.undone + [d.state] }

  ghost predicate Backed(hash: Hasher, rules: Rules, files: seq<Option<File>>, snaps: seq<Snap>) {
    |files| == |snaps| && forall i :: 0 <= i < |files| ==> Stored(hash, rules, files[i], snaps[i])
  }

  predicate Chain(snaps: seq<Snap>) { forall i, j :: 0 <= i <= j < |snaps| ==> Follows(snaps[i], snaps[j]) }

  /** Each state file holds a snapshot; later snapshots evolve from earlier ones; usable memory
      equals the present one. */
  ghost predicate Kept(hash: Hasher, rules: Rules, w: World, snaps: seq<Snap>) {
    snaps != [] && Backed(hash, rules, Files(w.disk), snaps) && Chain(snaps)
    && (w.mem.Some? && Usable(w.mem.value) ==> Holds(w.mem.value, Last(snaps)))
  }

  /** What a power failure can at worst go back to only moves on. */
  predicate Onward(snaps: seq<Snap>, after: seq<Snap>) { snaps != [] && after != [] && Follows(snaps[0], after[0]) }

  function Blank(): Snap { Snap(map[], 0, ZERO_TIME) }

  function Last(snaps: seq<Snap>): Snap { if snaps == [] then Blank() else snaps[|snaps| - 1] }

  // ---- one call ---------------------------------------------------------------------------------

  function PlanWrite(p: Plan): Option<map<string, Record>> { if p.Write? then Some(p.next) else None }

  /** The records an operation wants to commit, if any. */
  function Written(hash: Hasher, rules: Rules, records: map<string, Record>, op: Op,
                   now: int): Option<map<string, Record>> {
    match op
    case Create(raw) => PlanWrite(CreatePlan(hash, rules, records, raw, now))
    case Get(id) => PlanWrite(GetPlan(records, id, now))
    case Transition(id, digest, target, actor) => PlanWrite(TransitionPlan(records, id, digest, target, actor, now))
    case ExpireDue => if DueIDs(records, now) == {} then None else Some(AllExpired(records, now))
    case TakeSnapshot => if DueIDs(records, now) == {} then None else Some(AllExpired(records, now))
  }

  /** The call gets past the checks made before the records are looked at. */
  predicate Admitted(m: Memory, op: Op, reading: int) {
    Usable(m) && TrustedReading(m, reading)
    && !(op.Transition? && (op.target.Approved? || op.target.Denied?) && !ValidScalar(op.actor, 128))
  }

  lemma ApplyWrites(hash: Hasher, rules: Rules, m: Machine, op: Op, reading: int, fault: Fault)
    ensures Apply(hash, rules, m, op, reading, fault).0 ==
            if !Admitted(m.mem, op, reading) then m else
            var m1 := m.(mem := m.mem.(lastNow := reading));
            match Written(hash, rules, m.mem.records, op, reading)
            case None => m1
            case Some(next) => Commit(m1, next, reading, fault).0
  {
    hide TrustedReading, ValidScalar, Commit, CreatePlan, GetPlan, TransitionPlan, DueIDs, AllExpired, SnapshotReply;
  }

  lemma WrittenIsGood(hash: Hasher, rules: Rules, m: Memory, s: Snap, op: Op, now: int)
    requires GoodRecords(hash, rules, s.records, s.observed) && Holds(m, s) && ZERO_TIME <= s.observed
    requires Admitted(m, op, now) && Written(hash, rules, m.records, op, now).Some?
    ensures s.observed <= now && ZERO_TIME <= now && FourDigitYear(now)
    ensures GoodPlan(hash, rules, s.records, now, Written(hash, rules, m.records, op, now).value)
  {
    hide GoodRecords, FourDigitYear, ValidScalar, CreatePlan, GetPlan, TransitionPlan, AllExpired, GoodPlan;
    LaterStillGood(hash, rules, s.records, s.observed, now);
    match op
    case Create(raw) => CreatePlanIsGood(hash, rules, s.records, raw, now);
    case Get(id) => GetPlanIsGood(hash, rules, s.records, id, now);
    case Transition(id, digest, target, actor) =>
      TransitionPlanIsGood(hash, rules, s.records, id, digest, target, actor, now);
    case ExpireDue =>
      var id :| id in DueIDs(s.records, now);
      ExpirePlanIsGood(hash, rules, s.records, now);
    case TakeSnapshot =>
      var id :| id in DueIDs(s.records, now);
      ExpirePlanIsGood(hash, rules, s.records, now);
  }

  /** What a persist leaves: the old files, the new one with the old still to come back, or, when
      it succeeds, the new one alone. */
  lemma PersistLeaves(d: Disk, raw: string, fault: Fault)
    ensures var (e, o) := Persist(d, raw, fault);
      if o.Done? then d.temp == None && e == Disk(Some(File(raw, true)), None, [])
      else if e.undone == d.undone then e.state == d.state
      else !(o == Failed(Persistence)) && e.undone == d.undone + [d.state] && e.state == Some(File(raw, true))
  {
  }

  lemma MovesEvolve(a: map<string, Record>, b: map<string, Record>)
    requires Moves(a, b)
    ensures AllEvolved(a, b)
  {
  }

  lemma EvolvedTransitive(a: map<string, Record>, b: map<string, Record>, c: map<string, Record>)
    requires AllEvolved(a, b) && AllEvolved(b, c)
    ensures AllEvolved(a, c)
  {
    forall id | id in a ensures id in c && Evolved(a[id], c[id]) {
      assert id in b && Evolved(b[id], c[id]);
    }
  }

  lemma FollowsTransitive(a: Snap, b: Snap, c: Snap)
    requires Follows(a, b) && Follows(b, c)
    ensures Follows(a, c)
  {
    hide AllEvolved;
    EvolvedTransitive(a.records, b.records, c.records);
  }

  lemma FollowsItself(s: Snap)
    ensures Follows(s, s)
  {
  }

  /** A snapshot chain grows at its end. */
  lemma ChainGrows(snaps: seq<Snap>, s: Snap)
    requires snaps != [] && Chain(snaps) && Follows(Last(snaps), s)
    ensures Chain(snaps + [s]) && Follows(snaps[0], s)
  {
    hide Follows;
    var more := snaps + [s];
    FollowsItself(s);
    forall i, j | 0 <= i <= j < |more| ensures Follows(more[i], more[j]) {
      if i < |snaps| && j == |snaps| { FollowsTransitive(snaps[i], Last(snaps), s); }
    }
    assert more[0] == snaps[0] && more[|snaps|] == s;
  }

  lemma ChainOfOne(s: Snap)
    ensures Chain([s])
  {
    FollowsItself(s);
  }

  lemma BackedGrows(hash: Hasher, rules: Rules, files: seq<Option<File>>, snaps: seq<Snap>, f: Option<File>, s: Snap)
    requires Backed(hash, rules, files, snaps) && Stored(hash, rules, f, s)
    ensures Backed(hash, rules, files + [f], snaps + [s])
  {
    hide Stored;
  }

  lemma BackedOne(hash: Hasher, rules: Rules, d: Disk, s: Snap)
    requires Stored(hash, rules, d.state, s) && d.undone == []
    ensures Backed(hash, rules, Files(d), [s])
  {
    hide Stored;
  }

  lemma GenerationBound(hash: Hasher, rules: Rules, f: Option<File>, s: Snap)
    requires Stored(hash, rules, f, s)
    ensures s.generation <= MAX_GENERATION
  {
  }

  lemma LastIsStored(hash: Hasher, rules: Rules, d: Disk, snaps: seq<Snap>)
    requires snaps != [] && Backed(hash, rules, Files(d), snaps)
    ensures Stored(hash, rules, d.state, Last(snaps)) && Last(snaps).generation <= MAX_GENERATION
  {
    hide Stored;
    assert Files(d)[|snaps| - 1] == d.state;
    GenerationBound(hash, rules, d.state, Last(snaps));
  }

  function CommittedSnap(s: Snap, next: map<string, Record>, now: int): Snap { Snap(next, s.generation + 1, now) }

  lemma CommittedIsStored(hash: Hasher, rules: Rules, s: Snap, next: map<string, Record>, now: int)
    requires s.generation < MAX_GENERATION && s.observed <= now && ZERO_TIME <= now && FourDigitYear(now)
    requires GoodPlan(hash, rules, s.records, now, next)
    ensures Stored(hash, rules, Some(File(EncodeSnapshot(next, s.generation + 1, now), true)),
      CommittedSnap(s, next, now))
    ensures Follows(s, CommittedSnap(s, next, now))
  {
    hide EncodeSnapshot, GoodRecords, FourDigitYear, AllEvolved;
    MovesEvolve(s.records, next);
  }

  lemma HoldsCommitted(m: Memory, s: Snap, next: map<string, Record>, now: int)
    requires Holds(m, s) && m.lastNow == now
    ensures Holds(m.(records := next, generation := m.generation + 1, observed := now), CommittedSnap(s, next, now))
  {
  }

  predicate Live(w: World) { w.mem.Some? && Usable(w.mem.value) }

  lemma KeptAlone(hash: Hasher, rules: Rules, w: World, s: Snap)
    requires w.disk.undone == [] && Stored(hash, rules, w.disk.state, s) && (Live(w) ==> Holds(w.mem.value, s))
    ensures Kept(hash, rules, w, [s])
  {
    hide Stored, Holds, Backed;
    ChainOfOne(s);
    BackedOne(hash, rules, w.disk, s);
  }

  lemma KeptAsBefore(hash: Hasher, rules: Rules, w: World, snaps: seq<Snap>, w': World)
    requires snaps != [] && (Live(w') ==> Holds(w'.mem.value, Last(snaps)))
    requires w'.disk.undone == w.disk.undone && w'.disk.state == w.disk.state && Kept(hash, rules, w, snaps)
    ensures Kept(hash, rules, w', snaps) && Onward(snaps, snaps)
  {
    hide Backed, Chain, Holds;
    FollowsItself(snaps[0]);
  }

  lemma KeptRenamed(hash: Hasher, rules: Rules, w: World, snaps: seq<Snap>, w': World, s: Snap)
    requires w'.disk.undone == w.disk.undone + [w.disk.state] && !Live(w') && snaps != [] && Follows(Last(snaps), s)
    requires Stored(hash, rules, w'.disk.state, s) && Kept(hash, rules, w, snaps)
    ensures Kept(hash, rules, w', snaps + [s]) && Onward(snaps, snaps + [s])
  {
    hide Backed, Chain, Holds, Stored;
    FollowsItself(snaps[0]);
    ChainGrows(snaps, s);
    BackedGrows(hash, rules, Files(w.disk), snaps, w'.disk.state, s);
    assert Files(w'.disk) == Files(w.disk) + [w'.disk.state];
  }

  lemma KeptParts(hash: Hasher, rules: Rules, w: World, snaps: seq<Snap>)
    requires Kept(hash, rules, w, snaps)
    ensures snaps != [] && Chain(snaps) && Stored(hash, rules, w.disk.state, Last(snaps))
      && Last(snaps).generation <= MAX_GENERATION
    ensures Live(w) ==> Holds(w.mem.value, Last(snaps))
  {
    hide Stored, Chain, Holds;
    LastIsStored(hash, rules, w.disk, snaps);
  }

  lemma CommitAtLimit(m: Machine, next: map<string, Record>, now: int, fault: Fault)
    requires m.mem.generation == MAX_GENERATION
    ensures Commit(m, next, now, fault).0 == m
  {
  }

  lemma CommitKeeps(hash: Hasher, rules: Rules, m: Machine, snaps: seq<Snap>, next: map<string, Record>, now: int,
                    fault: Fault)
    returns (after: seq<Snap>)
    requires Usable(m.mem) && m.mem.lastNow == now && snaps != [] && Last(snaps).observed <= now && ZERO_TIME <= now
      && FourDigitYear(now)
    requires GoodPlan(hash, rules, Last(snaps).records, now, next)
    requires Kept(hash, rules, World(Some(m.mem), m.disk), snaps)
    ensures Onward(snaps, after)
    ensures var m' := Commit(m, next, now, fault).0; Kept(hash, rules, World(Some(m'.mem), m'.disk), after)
  {
    hide Stored, Follows, EncodeSnapshot, FourDigitYear, GoodPlan, Persist, Chain, Last, Kept, Commit, CommittedSnap,
      GoodRecords, AllEvolved;
    var w, m' := World(Some(m.mem), m.disk), Commit(m, next, now, fault).0;
    var w', last := World(Some(m'.mem), m'.disk), Last(snaps);
    KeptParts(hash, rules, w, snaps);
    if m.mem.generation == MAX_GENERATION {
      CommitAtLimit(m, next, now, fault);
      KeptAsBefore(hash, rules, w, snaps, w');
      return snaps;
    }
    CommitLeaves(m, next, now, fault);
    var raw, s := EncodeSnapshot(next, m.mem.generation + 1, now), CommittedSnap(last, next, now);
    CommittedIsStored(hash, rules, last, next, now);
    PersistLeaves(m.disk, raw, fault);
    if Persist(m.disk, raw, fault).1.Done? {
      HoldsCommitted(m.mem, last, next, now);
      KeptAlone(hash, rules, w', s);
      ChainGrows(snaps, s);
      after := [s];
    } else if m'.disk.undone == m.disk.undone {
      KeptAsBefore(hash, rules, w, snaps, w');
      after := snaps;
    } else {
      KeptRenamed(hash, rules, w, snaps, w', s);
      after := snaps + [s];
    }
  }

  /** What a commit does to memory: it takes the new snapshot on success, stays as it was when
      nothing was renamed, and is otherwise never usable again. */
  lemma CommitLeaves(m: Machine, next: map<string, Record>, now: int, fault: Fault)
    requires Usable(m.mem) && m.mem.generation != MAX_GENERATION
    ensures var (e, o) := Persist(m.disk, EncodeSnapshot(next, m.mem.generation + 1, now), fault);
      var m' := Commit(m, next, now, fault).0;
      m'.disk == e
      && (if o.Done? then m'.mem == m.mem.(records := next, generation := m.mem.generation + 1, observed := now)
          else if o == Failed(Persistence) then m'.mem == m.mem
          else !Usable(m'.mem))
  {
    hide EncodeSnapshot;
  }

  // ---- reopening ----------------------------------------------------------------------------------

  function Reloaded(s: Snap): Memory { Memory(s.records, s.generation, s.observed, s.observed, false, false) }

  /** Opening brings back exactly the stored snapshot if no temporary file is left and every record
      is reloadable, and reports corruption otherwise. */
  lemma OpenExactly(hash: Hasher, rules: Rules, d: Disk, s: Snap)
    requires Stored(hash, rules, d.state, s)
    ensures Open(hash, rules, d) == if d.temp == None && AllReloadable(s.records, s.observed) then Ok(Reloaded(s))
      else Err(Corrupt)
  {
    hide EncodeSnapshot, GoodRecords, FourDigitYear, Reloadable, DecodeSnapshot, SizeLimit;
    if s.generation > 0 {
      ReloadExactly(hash, rules, s.records, s.generation, s.observed);
      SnapshotFits(hash, rules, s.records, s.generation, s.observed);
    }
  }

  // ---- every step, every run ------------------------------------------------------------------

  lemma FirstFollowed(snaps: seq<Snap>, i: nat)
    requires Chain(snaps) && i < |snaps|
    ensures Onward(snaps, [snaps[i]])
  {
    hide Follows;
  }

  lemma FirstToLast(snaps: seq<Snap>)
    requires Chain(snaps) && snaps != []
    ensures Follows(snaps[0], Last(snaps))
  {
    hide Follows;
  }

  lemma CrashSource(d: Disk, left: Disk) returns (i: nat)
    requires AfterCrash(d, left)
    ensures left.undone == [] && i < |Files(d)| && Survives(Files(d)[i], left.state)
  {
    if Survives(d.state, left.state) { return |d.undone|; }
    i :| 0 <= i < |d.undone| && Survives(d.undone[i], left.state);
  }

  lemma CrashKeeps(hash: Hasher, rules: Rules, w: World, snaps: seq<Snap>, left: Disk) returns (after: seq<Snap>)
    requires AfterCrash(w.disk, left) && Kept(hash, rules, w, snaps)
    ensures Onward(snaps, after) && Kept(hash, rules, World(None, left), after)
  {
    hide Follows, Holds, EncodeSnapshot, GoodRecords, FourDigitYear, Chain;
    var files := Files(w.disk);
    var i := CrashSource(w.disk, left);
    assert Stored(hash, rules, files[i], snaps[i]);
    assert left.state == files[i];
    hide Stored;
    KeptAlone(hash, rules, World(None, left), snaps[i]);
    FirstFollowed(snaps, i);
    after := [snaps[i]];
  }

  lemma CallKeeps(hash: Hasher, rules: Rules, m: Machine, snaps: seq<Snap>, op: Op, reading: int, fault: Fault)
    returns (after: seq<Snap>)
    requires Kept(hash, rules, World(Some(m.mem), m.disk), snaps)
    ensures Onward(snaps, after)
    ensures var m' := Apply(hash, rules, m, op, reading, fault).0;
      Kept(hash, rules, World(Some(m'.mem), m'.disk), after)
  {
    hide Stored, Follows, FourDigitYear, GoodPlan, Chain, Kept, Commit, Apply, Written, ValidScalar, AllEvolved;
    var w := World(Some(m.mem), m.disk);
    KeptParts(hash, rules, w, snaps);
    ApplyWrites(hash, rules, m, op, reading, fault);
    if !Admitted(m.mem, op, reading) {
      KeptAsBefore(hash, rules, w, snaps, w);
      return snaps;
    }
    var m1 := m.(mem := m.mem.(lastNow := reading));
    var w1 := World(Some(m1.mem), m1.disk);
    StoredIsGood(hash, rules, m.disk.state, Last(snaps));
    KeptAsBefore(hash, rules, w, snaps, w1);
    match Written(hash, rules, m.mem.records, op, reading)
    case None => after := snaps;
    case Some(next) =>
      WrittenIsGood(hash, rules, m.mem, Last(snaps), op, reading);
      after := CommitKeeps(hash, rules, m1, snaps, next, reading, fault);
  }

  lemma StoredIsGood(hash: Hasher, rules: Rules, f: Option<File>, s: Snap)
    requires Stored(hash, rules, f, s)
    ensures GoodRecords(hash, rules, s.records, s.observed) && ZERO_TIME <= s.observed && FourDigitYear(s.observed)
  {
  }

  lemma StepKeeps(hash: Hasher, rules: Rules, w: World, snaps: seq<Snap>, e: Event) returns (after: seq<Snap>)
    requires Kept(hash, rules, w, snaps)
    ensures Onward(snaps, after) && Kept(hash, rules, Step(hash, rules, w, e), after)
  {
    hide Stored, Follows, FourDigitYear, Chain, Kept, Apply, Open, AfterCrash, AllReloadable;
    KeptParts(hash, rules, w, snaps);
    if !Enabled(w, e) {
      KeptAsBefore(hash, rules, w, snaps, w);
      return snaps;
    }
    match e
    case Call(op, reading, fault) =>
      assert w == World(Some(w.mem.value), w.disk);
      after := CallKeeps(hash, rules, Machine(w.mem.value, w.disk), snaps, op, reading, fault);
    case PowerLoss(left) => after := CrashKeeps(hash, rules, w, snaps, left);
    case CloseStore => KeptAsBefore(hash, rules, w, snaps, Step(hash, rules, w, e)); after := snaps;
    case RemoveTemporary => KeptAsBefore(hash, rules, w, snaps, Step(hash, rules, w, e)); after := snaps;
    case Reopen =>
      OpenExactly(hash, rules, w.disk, Last(snaps));
      KeptAsBefore(hash, rules, w, snaps, Step(hash, rules, w, e));
      after := snaps;
  }

  function Run(hash: Hasher, rules: Rules, w: World, events: seq<Event>): World
    decreases |events|
  {
    if events == [] then w else Run(hash, rules, Step(hash, rules, w, events[0]), events[1..])
  }

  /** Over any run: usable memory equals the durable state file, every state a power failure could
      bring back is a complete good snapshot, and the oldest of them only ever evolves. */
  lemma {:induction false} RunKeeps(hash: Hasher, rules: Rules, w: World, snaps: seq<Snap>, events: seq<Event>)
    returns (after: seq<Snap>)
    requires Kept(hash, rules, w, snaps)
    ensures Onward(snaps, after) && Kept(hash, rules, Run(hash, rules, w, events), after)
    decreases |events|
  {
    hide Kept, Step, Enabled, Follows;
    if events == [] {
      KeptParts(hash, rules, w, snaps);
      FollowsItself(snaps[0]);
      after := snaps;
    } else {
      var between := StepKeeps(hash, rules, w, snaps, events[0]);
      after := RunKeeps(hash, rules, Step(hash, rules, w, events[0]), between, events[1..]);
      FollowsTransitive(snaps[0], between[0], after[0]);
    }
  }

  predicate TimesInOrder(r: Record) {
    r.createdAt < r.expiresAt
    && (r.state.Approved? || r.state.Denied? || r.state.Cancelled? || r.state.Stale? ==>
      r.createdAt <= r.decidedAt < r.expiresAt)
    && (r.state.Expired? ==> r.expiresAt <= r.decidedAt)
    && (r.state.Pending? ==> r.decidedAt == ZERO_TIME && r.actorID == "")
  }

  lemma GoodTimes(hash: Hasher, rules: Rules, id: string, r: Record, t: int)
    requires GoodRecord(hash, rules, id, r, t)
    ensures TimesInOrder(r)
  {
    hide Manifest.Parse, FourDigitYear, RawCanonical, IsDigest, Spell, ParseTime, ToWire, FormatTime;
    GoodManifest(hash, rules, id, r, t);
  }

  lemma StoredTimes(hash: Hasher, rules: Rules, f: Option<File>, s: Snap, id: string)
    requires id in s.records && Stored(hash, rules, f, s)
    ensures TimesInOrder(s.records[id])
  {
    hide GoodRecord, FourDigitYear, EncodeSnapshot, TimesInOrder;
    GoodTimes(hash, rules, id, s.records[id], s.observed);
  }

  /** Over any run a settled record only moves from pending to a decision or expiry, and from approved
      to stale or expired; its request never changes; people decide before its expiry and it expires at
      or after it. */
  lemma RecordsOnlyMoveOn(hash: Hasher, rules: Rules, w: World, snaps: seq<Snap>, events: seq<Event>, id: string)
    returns (after: seq<Snap>)
    requires snaps != [] && id in snaps[0].records && Kept(hash, rules, w, snaps)
    ensures Kept(hash, rules, Run(hash, rules, w, events), after) && after != []
    ensures forall i :: 0 <= i < |after| ==>
              id in after[i].records && Evolved(snaps[0].records[id], after[i].records[id])
                && TimesInOrder(after[i].records[id])
  {
    hide Stored, Run, Evolved, TimesInOrder, Holds;
    after := RunKeeps(hash, rules, w, snaps, events);
    var files := Files(Run(hash, rules, w, events).disk);
    forall i | 0 <= i < |after|
      ensures id in after[i].records && Evolved(snaps[0].records[id], after[i].records[id])
        && TimesInOrder(after[i].records[id])
    {
      FollowsTransitive(snaps[0], after[0], after[i]);
      StoredTimes(hash, rules, files[i], after[i], id);
    }
  }

  function EmptyDisk(): Disk { Disk(None, None, []) }

  lemma EmptyIsKept(hash: Hasher, rules: Rules)
    ensures Kept(hash, rules, World(None, EmptyDisk()), [Blank()])
  {
    hide EncodeSnapshot, Chain, FourDigitYear;
    ZeroTimeHasAYear();
    KeptAlone(hash, rules, World(None, EmptyDisk()), Blank());
  }

  // ---- memory that is not used again ---------------------------------------------------------------

  /** Closed or poisoned memory never answers from its records and changes nothing, whatever is
      called, until the store is opened again. */
  lemma {:induction false} UnusableStaysUnused(hash: Hasher, rules: Rules, w: World, events: seq<Event>)
    requires w.mem.Some? && !Usable(w.mem.value) && forall e :: e in events ==> e.Call? || e.CloseStore?
    ensures var w' := Run(hash, rules, w, events);
      w'.disk == w.disk && w'.mem.Some? && !Usable(w'.mem.value)
        && w'.mem.value == w.mem.value.(closed := w'.mem.value.closed)
    ensures forall op, reading, fault ::
      Apply(hash, rules, Machine(w.mem.value, w.disk), op, reading, fault).1 == Err(UseError(w.mem.value))
    decreases |events|
  {
    hide Commit, Carry, CreatePlan, GetPlan, TransitionPlan, SnapshotReply, DueIDs, AllExpired, ValidScalar,
      TrustedReading, Open;
    if events != [] {
      assert events[0] in events;
      UnusableStaysUnused(hash, rules, Step(hash, rules, w, events[0]), events[1..]);
    }
  }

  // ---- acknowledged calls are durable --------------------------------------------------------------

  /** A call that writes and reports success has replaced memory and the state file, and no older
      state file can come back. */
  lemma AcknowledgedIsDurable(hash: Hasher, rules: Rules, m: Machine, snaps: seq<Snap>, op: Op, reading: int,
                              fault: Fault)
    requires Admitted(m.mem, op, reading) && Written(hash, rules, m.mem.records, op, reading).Some?
    requires Apply(hash, rules, m, op, reading, fault).1.Ok?
    requires Kept(hash, rules, World(Some(m.mem), m.disk), snaps)
    ensures var m' := Apply(hash, rules, m, op, reading, fault).0;
      Kept(hash, rules, World(Some(m'.mem), m'.disk), [NewSnap(hash, rules, Last(snaps), op, reading)])
        && Usable(m'.mem) && m'.disk.temp == None
    ensures Onward(snaps, [NewSnap(hash, rules, Last(snaps), op, reading)])
  {
    hide Stored, Follows, FourDigitYear, GoodPlan, Chain, Kept, Apply, Written, ValidScalar, EncodeSnapshot,
      CommittedSnap, Last, GoodRecords, TrustedReading;
    KeptParts(hash, rules, World(Some(m.mem), m.disk), snaps);
    StoredIsGood(hash, rules, m.disk.state, Last(snaps));
    ApplySucceeded(hash, rules, m, op, reading, fault);
    var last, next := Last(snaps), Written(hash, rules, m.mem.records, op, reading).value;
    WrittenIsGood(hash, rules, m.mem, last, op, reading);
    HoldsCommitted(m.mem.(lastNow := reading), last, next, reading);
    assert last.generation == m.mem.generation && last.records == m.mem.records && Usable(m.mem);
    hide Holds, Admitted;
    CommittedIsStored(hash, rules, last, next, reading);
    FirstToLast(snaps);
    FollowsTransitive(snaps[0], last, CommittedSnap(last, next, reading));
    var m' := Apply(hash, rules, m, op, reading, fault).0;
    KeptAlone(hash, rules, World(Some(m'.mem), m'.disk), CommittedSnap(last, next, reading));
  }

  lemma ApplySucceeded(hash: Hasher, rules: Rules, m: Machine, op: Op, reading: int, fault: Fault)
    requires Admitted(m.mem, op, reading) && Written(hash, rules, m.mem.records, op, reading).Some?
    requires Apply(hash, rules, m, op, reading, fault).1.Ok?
    ensures var next := Written(hash, rules, m.mem.records, op, reading).value;
      m.mem.generation != MAX_GENERATION
      && Apply(hash, rules, m, op, reading, fault).0
         == Machine(m.mem.(records := next, generation := m.mem.generation + 1, observed := reading,
           lastNow := reading),
                    Disk(Some(File(EncodeSnapshot(next, m.mem.generation + 1, reading), true)), None, []))
  {
    hide Apply, Written, Commit, EncodeSnapshot, Persist, ValidScalar, TrustedReading;
    var next := Written(hash, rules, m.mem.records, op, reading).value;
    ApplyWrites(hash, rules, m, op, reading, fault);
    OkMeansCommitted(hash, rules, m, op, reading, fault);
    CommitLeaves(m.(mem := m.mem.(lastNow := reading)), next, reading, fault);
    PersistLeaves(m.disk, EncodeSnapshot(next, m.mem.generation + 1, reading), fault);
  }

  /** The snapshot a successful call leaves. */
  function NewSnap(hash: Hasher, rules: Rules, s: Snap, op: Op, now: int): Snap {
    match Written(hash, rules, s.records, op, now)
    case None => s
    case Some(next) => CommittedSnap(s, next, now)
  }

  lemma OkMeansCommitted(hash: Hasher, rules: Rules, m: Machine, op: Op, reading: int, fault: Fault)
    requires Admitted(m.mem, op, reading) && Written(hash, rules, m.mem.records, op, reading).Some?
    requires Apply(hash, rules, m, op, reading, fault).1.Ok?
    ensures m.mem.generation != MAX_GENERATION
    ensures Persist(m.disk,
      EncodeSnapshot(Written(hash, rules, m.mem.records, op, reading).value, m.mem.generation + 1,
        reading), fault).1.Done?
  {
    hide TrustedReading, ValidScalar, CreatePlan, GetPlan, TransitionPlan, DueIDs, AllExpired, SnapshotReply, Persist,
      EncodeSnapshot;
  }

  /** Without faults a transition succeeds exactly on a usable store with room for a snapshot and no
      left-over temporary file, for the right digest of a record it is allowed for, before expiry. */
  lemma TransitionSucceedsExactly(hash: Hasher, rules: Rules, m: Machine, id: string, digest: string, target: State,
                                  actor: string, now: int)
    requires m.mem.generation <= MAX_GENERATION
    ensures Apply(hash, rules, m, Transition(id, digest, target, actor), now, NoFault).1.Ok?
            <==> Usable(m.mem) && TrustedReading(m.mem, now) && m.mem.generation < MAX_GENERATION && m.disk.temp == None
                 && id in m.mem.records && m.mem.records[id].digest == digest && now < m.mem.records[id].expiresAt
                 && (if m.mem.records[id].state.Pending? then target.Approved? || target.Denied? || target.Cancelled?
                   else m.mem.records[id].state.Approved? && target.Stale?)
                 && (target.Approved? || target.Denied? ==> ValidScalar(actor, 128))
  {
    hide TrustedReading, EncodeSnapshot, ValidScalar;
  }

  /** A transition that returned its record stays decided that way: after any later run, every state
      a power failure could bring back, and the present one, holds the record or its later life. */
  lemma DecisionSurvives(hash: Hasher, rules: Rules, m: Machine, snaps: seq<Snap>, id: string, digest: string,
                         target: State,
                         actor: string, reading: int, fault: Fault, r: Record, later: seq<Event>)
    returns (after: seq<Snap>)
    requires Kept(hash, rules, World(Some(m.mem), m.disk), snaps)
    requires Apply(hash, rules, m, Transition(id, digest, target, actor), reading, fault).1 == Ok(ARecord(r))
    ensures var m' := Apply(hash, rules, m, Transition(id, digest, target, actor), reading, fault).0;
      Kept(hash, rules, Run(hash, rules, World(Some(m'.mem), m'.disk), later), after)
    ensures r.requestID == id && r.digest == digest && r.state == target
      && (target.Approved? || target.Denied? ==> r.actorID == actor)
    ensures after != [] && forall i :: 0 <= i < |after| ==> id in after[i].records && Evolved(r, after[i].records[id])
  {
    hide Kept, Commit, Apply, AllEvolved, Run, Stored, Chain, FourDigitYear, ValidScalar, ExpireRecord, GoodRecords,
      Follows, TransitionPlan, Last;
    var op := Transition(id, digest, target, actor);
    var m' := Apply(hash, rules, m, op, reading, fault).0;
    TransitionAnswer(hash, rules, m, id, digest, target, actor, reading, fault, r);
    KeptParts(hash, rules, World(Some(m.mem), m.disk), snaps);
    StoredIsGood(hash, rules, m.disk.state, Last(snaps));
    SubjectID(hash, rules, m.mem.records, Last(snaps).observed, id);
    AcknowledgedIsDurable(hash, rules, m, snaps, op, reading, fault);
    var s := NewSnap(hash, rules, Last(snaps), op, reading);
    after := RunKeeps(hash, rules, World(Some(m'.mem), m'.disk), [s], later);
    KeptParts(hash, rules, Run(hash, rules, World(Some(m'.mem), m'.disk), later), after);
    forall i | 0 <= i < |after| ensures id in after[i].records && Evolved(r, after[i].records[id]) {
      FollowedRecord(s, after, i, id);
    }
  }

  lemma FollowedRecord(s: Snap, after: seq<Snap>, i: nat, id: string)
    requires Onward([s], after) && Chain(after) && i < |after| && id in s.records
    ensures id in after[i].records && Evolved(s.records[id], after[i].records[id])
  {
    hide Evolved;
    assert Follows(after[0], after[i]);
    FollowsTransitive(s, after[0], after[i]);
  }

  lemma SubjectID(hash: Hasher, rules: Rules, records: map<string, Record>, t: int, id: string)
    requires GoodRecords(hash, rules, records, t) && id in records
    ensures records[id].requestID == id
  {
    hide Manifest.Parse, DecidedShape, FourDigitYear;
    assert GoodRecord(hash, rules, id, records[id], t);
  }

  lemma TransitionAnswer(hash: Hasher, rules: Rules, m: Machine, id: string, digest: string, target: State,
                         actor: string, reading: int, fault: Fault, r: Record)
    requires Apply(hash, rules, m, Transition(id, digest, target, actor), reading, fault).1 == Ok(ARecord(r))
    ensures var op := Transition(id, digest, target, actor);
      Admitted(m.mem, op, reading) && id in m.mem.records
        && Written(hash, rules, m.mem.records, op, reading) == Some(m.mem.records[id := r])
    ensures SameRequest(m.mem.records[id], r) && r.digest == digest && r.state == target
    ensures !Due(m.mem.records[id], reading) && r.decidedAt == reading && Allowed(m.mem.records[id].state, target)
    ensures r.actorID == if target.Approved? || target.Denied? then actor else m.mem.records[id].actorID
  {
    hide TrustedReading, ValidScalar, CreatePlan, GetPlan, DueIDs, AllExpired, SnapshotReply, Persist, EncodeSnapshot;
  }

  // ---- which commits can be reopened --------------------------------------------------------------

  /** The record is one the operation leaves as it is. */
  predicate Untouched(op: Op, id: string, r: Record, now: int) {
    match op
    case Create(_) => true
    case Get(x) => id != x
    case Transition(x, _, _, _) => id != x
    case ExpireDue => !Due(r, now)
    case TakeSnapshot => !Due(r, now)
  }

  /** What a caller could check before the call: no other record is already due while pending, or
      stamped with the unset instant, and the call itself stamps nothing with that instant. */
  predicate LeavesReloadable(records: map<string, Record>, op: Op, now: int) {
    (op.Create? || now != ZERO_TIME)
    && forall id :: id in records && Untouched(op, id, records[id], now) ==> Reloadable(records[id], now)
  }

  lemma ReplacedReloadable(records: map<string, Record>, id: string, r: Record, now: int)
    requires !r.state.Pending? && r.decidedAt == now
    ensures AllReloadable(records[id := r], now) <==>
            now != ZERO_TIME && forall k :: k in records && k != id ==> Reloadable(records[k], now)
  {
    hide Reloadable;
    var next := records[id := r];
    assert Reloadable(r, now) <==> now != ZERO_TIME by { StampedReloadable(r, now); }
    if AllReloadable(next, now) {
      assert id in next;
      forall k | k in records && k != id ensures Reloadable(records[k], now) { assert k in next; }
    }
  }

  lemma StampedReloadable(r: Record, now: int)
    requires !r.state.Pending? && r.decidedAt == now
    ensures Reloadable(r, now) <==> now != ZERO_TIME
  {
  }

  lemma CreatedReloadable(records: map<string, Record>, id: string, r: Record, now: int)
    requires id !in records && r.state.Pending? && now < r.expiresAt
    ensures AllReloadable(records[id := r], now) <==> forall k :: k in records ==> Reloadable(records[k], now)
  {
    var next := records[id := r];
    assert Reloadable(r, now);
    hide Reloadable;
    if AllReloadable(next, now) {
      forall k | k in records ensures Reloadable(records[k], now) { assert k in next; }
    }
  }

  lemma ExpiredReloadable(records: map<string, Record>, now: int)
    requires DueIDs(records, now) != {}
    ensures AllReloadable(AllExpired(records, now), now) <==>
            now != ZERO_TIME && forall k :: k in records && !Due(records[k], now) ==> Reloadable(records[k], now)
  {
    hide Reloadable, AllExpired, Due, ExpireRecord;
    AllExpiredKeys(records, now);
    var next := AllExpired(records, now);
    forall k | k in records && Due(records[k], now) ensures Reloadable(next[k], now) <==> now != ZERO_TIME {
      ExpiredStamp(records[k], now);
      StampedReloadable(next[k], now);
    }
    var id :| id in DueIDs(records, now);
    if AllReloadable(next, now) {
      assert Reloadable(next[id], now);
      forall k | k in records && !Due(records[k], now)
        ensures Reloadable(records[k], now)
      {
        assert Reloadable(next[k], now);
      }
    }
  }

  lemma ExpiredStamp(r: Record, now: int)
    ensures !ExpireRecord(r, now).state.Pending? && ExpireRecord(r, now).decidedAt == now
  {
  }

  lemma WrittenReloadable(hash: Hasher, rules: Rules, s: Snap, op: Op, now: int)
    requires Written(hash, rules, s.records, op, now).Some?
    ensures AllReloadable(NewSnap(hash, rules, s, op, now).records, now) <==> LeavesReloadable(s.records, op, now)
  {
    hide Reloadable, AllReloadable, AllExpired, ExpireRecord, DueIDs, LeavesReloadable, Manifest.Parse, Allowed;
    match op
    case Create(raw) =>
      var r := CreatePlan(hash, rules, s.records, raw, now).answer.value;
      CreatedReloadable(s.records, r.requestID, r, now);
      UntouchedByCreate(s.records, raw, now);
    case Get(id) =>
      ExpiredStamp(s.records[id], now);
      ReplacedReloadable(s.records, id, ExpireRecord(s.records[id], now), now);
      UntouchedByGet(s.records, op, id, now);
    case Transition(id, digest, target, actor) =>
      ExpiredStamp(s.records[id], now);
      var r := Written(hash, rules, s.records, op, now).value[id];
      assert Written(hash, rules, s.records, op, now).value == s.records[id := r];
      TransitionStamp(s.records, id, digest, target, actor, now);
      ReplacedReloadable(s.records, id, r, now);
      UntouchedByGet(s.records, op, id, now);
    case ExpireDue => ExpiredReloadable(s.records, now); UntouchedByExpiry(s.records, op, now);
    case TakeSnapshot => ExpiredReloadable(s.records, now); UntouchedByExpiry(s.records, op, now);
  }

  lemma UntouchedByCreate(records: map<string, Record>, raw: string, now: int)
    ensures LeavesReloadable(records, Create(raw), now) <==> forall k :: k in records ==> Reloadable(records[k], now)
  {
    hide Reloadable;
  }

  lemma UntouchedByGet(records: map<string, Record>, op: Op, id: string, now: int)
    requires op == Get(id) || (op.Transition? && op.id == id)
    ensures LeavesReloadable(records, op, now)
      <==> now != ZERO_TIME && forall k :: k in records && k != id ==> Reloadable(records[k], now)
  {
    hide Reloadable;
  }

  lemma UntouchedByExpiry(records: map<string, Record>, op: Op, now: int)
    requires op.ExpireDue? || op.TakeSnapshot?
    ensures LeavesReloadable(records, op, now)
      <==> now != ZERO_TIME && forall k :: k in records && !Due(records[k], now) ==> Reloadable(records[k], now)
  {
    hide Reloadable;
  }

  lemma TransitionStamp(records: map<string, Record>, id: string, digest: string, target: State, actor: string,
                        now: int)
    requires TransitionPlan(records, id, digest, target, actor, now).Write?
    ensures var next := TransitionPlan(records, id, digest, target, actor, now).next;
      id in next && next == records[id := next[id]] && !next[id].state.Pending? && next[id].decidedAt == now
  {
  }

  /** After any successful writing call, closing and opening the store brings back exactly what was
      committed if and only if the caller's check held before the call; otherwise the store can
      never be opened from that file. */
  lemma CommitReopensExactly(hash: Hasher, rules: Rules, m: Machine, snaps: seq<Snap>, op: Op, reading: int,
                             fault: Fault)
    requires Admitted(m.mem, op, reading) && Written(hash, rules, m.mem.records, op, reading).Some?
    requires Apply(hash, rules, m, op, reading, fault).1.Ok?
    requires Kept(hash, rules, World(Some(m.mem), m.disk), snaps)
    ensures var m' := Apply(hash, rules, m, op, reading, fault).0;
      Open(hash, rules, m'.disk) == if LeavesReloadable(m.mem.records, op, reading) then Ok(m'.mem) else Err(Corrupt)
  {
    hide Kept, Apply, Open, Written, Admitted, AllReloadable, LeavesReloadable, Stored, Chain;
    KeptParts(hash, rules, World(Some(m.mem), m.disk), snaps);
    AcknowledgedIsDurable(hash, rules, m, snaps, op, reading, fault);
    var m', s := Apply(hash, rules, m, op, reading, fault).0, NewSnap(hash, rules, Last(snaps), op, reading);
    KeptParts(hash, rules, World(Some(m'.mem), m'.disk), [s]);
    OpenExactly(hash, rules, m'.disk, s);
    AdmittedIsLive(m.mem, op, reading);
    WrittenReloadable(hash, rules, Last(snaps), op, reading);
    ApplySucceeded(hash, rules, m, op, reading, fault);
  }

  lemma AdmittedIsLive(m: Memory, op: Op, reading: int)
    requires Admitted(m, op, reading)
    ensures Usable(m)
  {
  }

  // ---- expiry --------------------------------------------------------------------------------------

  lemma ExpiredNotDue(r: Record, now: int)
    ensures !Due(ExpireRecord(r, now), now)
  {
  }

  lemma NothingDueAfter(records: map<string, Record>, now: int)
    ensures DueIDs(AllExpired(records, now), now) == {}
  {
    hide Due, ExpireRecord;
    forall id | id in records ensures !Due(AllExpired(records, now)[id], now) { ExpiredNotDue(records[id], now); }
  }

  /** ExpireDue and Snapshot leave no record due at the instant they read; so what they commit
      reopens unless some record carries the unset instant as its decision time. */
  lemma ExpiryLeavesNothingDue(hash: Hasher, rules: Rules, m: Machine, op: Op, reading: int, fault: Fault)
    requires (op.ExpireDue? || op.TakeSnapshot?) && Apply(hash, rules, m, op, reading, fault).1.Ok?
    ensures DueIDs(Apply(hash, rules, m, op, reading, fault).0.mem.records, reading) == {}
    ensures LeavesReloadable(m.mem.records, op, reading) <==>
            reading != ZERO_TIME
            && (forall id | id in m.mem.records && !m.mem.records[id].state.Pending?
                            && !Due(m.mem.records[id], reading) :: m.mem.records[id].decidedAt != ZERO_TIME)
  {
    hide Apply, Written, AllExpired, DueIDs, ValidScalar, TrustedReading, Commit;
    NothingDueAfter(m.mem.records, reading);
    ApplyOfExpiry(hash, rules, m, op, reading, fault);
    var records := m.mem.records;
    forall id | id in records && !Due(records[id], reading)
      ensures Reloadable(records[id], reading) <==> records[id].state.Pending? || records[id].decidedAt != ZERO_TIME
    {
    }
    UntouchedByExpiry(records, op, reading);
    hide Due, Reloadable, LeavesReloadable;
  }

  lemma ApplyOfExpiry(hash: Hasher, rules: Rules, m: Machine, op: Op, reading: int, fault: Fault)
    requires (op.ExpireDue? || op.TakeSnapshot?) && Apply(hash, rules, m, op, reading, fault).1.Ok?
    ensures Admitted(m.mem, op, reading)
    ensures var next := Apply(hash, rules, m, op, reading, fault).0.mem.records;
      if DueIDs(m.mem.records, reading) == {} then next == m.mem.records else next == AllExpired(m.mem.records, reading)
  {
    hide TrustedReading, ValidScalar, DueIDs, AllExpired, SnapshotReply, Persist, EncodeSnapshot;
  }

  /** Get on each identifier of a list, one after the other at one instant. */
  function GetEach(hash: Hasher, rules: Rules, m: Machine, ids: seq<string>, now: int): Machine
    decreases |ids|
  {
    if ids == [] then m else GetEach(hash, rules, Apply(hash, rules, m, Get(ids[0]), now, NoFault).0, ids[1..], now)
  }

  /** The records with those of the given identifiers that are due expired. */
  function ExpiredIn(records: map<string, Record>, done: set<string>, now: int): map<string, Record> {
    map id | id in records :: if id in done && Due(records[id], now) then ExpireRecord(records[id], now)
      else records[id]
  }

  lemma ExpiredInStep(records: map<string, Record>, done: set<string>, id: string, now: int)
    ensures var part := ExpiredIn(records, done, now);
      ExpiredIn(records, done + {id}, now) == if id in part && Due(part[id], now) then
        part[id := ExpireRecord(part[id], now)] else part
    ensures var part := ExpiredIn(records, done, now);
      id in part && Due(part[id], now) <==> id in DueIDs(records, now) && id !in done
  {
    if id in records { ExpiredNotDue(records[id], now); }
    hide Due, ExpireRecord;
  }

  /** A fault-free commit with no left-over temporary file takes the new records. */
  lemma GetStep(hash: Hasher, rules: Rules, m: Machine, id: string, now: int)
    requires Usable(m.mem) && TrustedReading(m.mem, now) && m.disk.temp == None
    requires id in m.mem.records && Due(m.mem.records[id], now) ==> m.mem.generation < MAX_GENERATION
    ensures var m' := Apply(hash, rules, m, Get(id), now, NoFault).0;
      var due := id in m.mem.records && Due(m.mem.records[id], now);
      m'.mem == m.mem.(lastNow := now,
                       records := if due then m.mem.records[id := ExpireRecord(m.mem.records[id], now)]
                                  else m.mem.records,
                       generation := if due then m.mem.generation + 1 else m.mem.generation,
                       observed := if due then now else m.mem.observed)
      && m'.disk.temp == None && TrustedReading(m'.mem, now)
  {
    hide EncodeSnapshot, Due, ExpireRecord, FourDigitYear;
  }

  /** Where a pass of Gets stands after the identifiers in `done`. */
  predicate PassAt(start: Memory, m: Machine, done: set<string>, now: int) {
    var expired := DueIDs(start.records, now) * done;
    m.mem.records == ExpiredIn(start.records, done, now) && m.mem.generation == start.generation + |expired|
    && m.mem.observed == (if expired == {} then start.observed else now)
    && Usable(m.mem) && TrustedReading(m.mem, now) && m.disk.temp == None
  }

  lemma PassStep(hash: Hasher, rules: Rules, start: Memory, m: Machine, done: set<string>, id: string, now: int)
    requires PassAt(start, m, done, now) && start.generation + |DueIDs(start.records, now)| <= MAX_GENERATION
    ensures var m' := Apply(hash, rules, m, Get(id), now, NoFault).0;
      PassAt(start, m', done + {id}, now) && m'.mem.lastNow == now
  {
    hide TrustedReading, ExpiredIn, DueIDs, Due, ExpireRecord, Apply;
    var dues := DueIDs(start.records, now);
    var expired := dues * done;
    ExpiredInStep(start.records, done, id, now);
    if id in dues && id !in done {
      assert dues * (done + {id}) == expired + {id};
      SubsetSize(expired + {id}, dues);
    } else {
      assert dues * (done + {id}) == expired;
    }
    GetStep(hash, rules, m, id, now);
  }

  lemma {:induction false} PassOver(hash: Hasher, rules: Rules, start: Memory, m: Machine, done: set<string>,
                                    ids: seq<string>, now: int)
    requires PassAt(start, m, done, now) && start.generation + |DueIDs(start.records, now)| <= MAX_GENERATION
    ensures var m' := GetEach(hash, rules, m, ids, now);
      PassAt(start, m', done + (set id | id in ids), now) && (ids != [] ==> m'.mem.lastNow == now)
    decreases |ids|
  {
    hide PassAt, Apply, DueIDs;
    if ids == [] {
      assert done + (set id | id in ids) == done;
    } else {
      var m1 := Apply(hash, rules, m, Get(ids[0]), now, NoFault).0;
      PassStep(hash, rules, start, m, done, ids[0], now);
      PassOver(hash, rules, start, m1, done + {ids[0]}, ids[1..], now);
      assert done + {ids[0]} + (set id | id in ids[1..]) == done + (set id | id in ids);
      if |ids| == 1 { assert ids[1..] == []; }
    }
  }

  /** Expiring everything at once leaves the same memory as getting every identifier, in any order
      and any number of times, at the same instant, apart from the generation. */
  lemma ExpireDueIsGetOfEach(hash: Hasher, rules: Rules, m: Machine, ids: seq<string>, now: int)
    requires Usable(m.mem) && TrustedReading(m.mem, now) && m.disk.temp == None
    requires m.mem.generation + |DueIDs(m.mem.records, now)| <= MAX_GENERATION
    requires ids != [] && forall id :: id in m.mem.records ==> id in ids
    ensures var each, once :=
      GetEach(hash, rules, m, ids, now).mem, Apply(hash, rules, m, ExpireDue, now, NoFault).0.mem;
      each == once.(generation := each.generation)
      && each.generation == m.mem.generation + |DueIDs(m.mem.records, now)|
      && once.generation == m.mem.generation + (if DueIDs(m.mem.records, now) == {} then 0 else 1)
  {
    hide ExpiredIn, DueIDs, AllExpired, GetEach, Apply, TrustedReading;
    var start, dues := m.mem, DueIDs(m.mem.records, now);
    NothingExpired(start.records, now);
    assert dues * {} == {};
    PassOver(hash, rules, start, m, {}, ids, now);
    var done := {} + (set id | id in ids);
    assert dues * done == dues by { DueAreRecords(start.records, now); }
    AllExpiredIn(start.records, done, now);
    ExpireAtOnce(hash, rules, m, now);
  }

  lemma DueAreRecords(records: map<string, Record>, now: int)
    ensures DueIDs(records, now) <= records.Keys
  {
  }

  lemma NothingExpired(records: map<string, Record>, now: int)
    ensures ExpiredIn(records, {}, now) == records
  {
    hide Due, ExpireRecord;
  }

  lemma AllExpiredIn(records: map<string, Record>, done: set<string>, now: int)
    requires records.Keys <= done
    ensures ExpiredIn(records, done, now) == if DueIDs(records, now) == {} then records else AllExpired(records, now)
  {
    hide ExpireRecord, Due;
    if DueIDs(records, now) == {} {
      forall id | id in records ensures !Due(records[id], now) { assert id !in DueIDs(records, now); }
    }
  }

  lemma ExpireAtOnce(hash: Hasher, rules: Rules, m: Machine, now: int)
    requires Usable(m.mem) && TrustedReading(m.mem, now) && m.disk.temp == None
    requires DueIDs(m.mem.records, now) == {} || m.mem.generation < MAX_GENERATION
    ensures var m' := Apply(hash, rules, m, ExpireDue, now, NoFault).0; var none := DueIDs(m.mem.records, now) == {};
      m'.mem == m.mem.(lastNow := now, records := if none then m.mem.records else AllExpired(m.mem.records, now),
                       generation := if none then m.mem.generation
                         else m.mem.generation + 1, observed := if none then m.mem.observed else now)
  {
    hide EncodeSnapshot, DueIDs, AllExpired, FourDigitYear;
  }
}
